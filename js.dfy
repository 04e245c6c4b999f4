/**
 * The JavaScript built-ins the server and the client compute with: `trim`,
 * `toLowerCase`, `includes`, `split`/`join`, `substring`, `slice`, `filter`
 * and the decimal text of a number. A JavaScript string is modelled as a
 * `seq<char>` with one character per UTF-16 code unit.
 */
module Js {

  // ---------------------------------------------------------------------------
  // trim
  // ---------------------------------------------------------------------------

  /** The code points `String.prototype.trim` removes: ECMAScript WhiteSpace and LineTerminator. */
  predicate IsJsWhitespace(c: char) {
    || c == '\t' || c == '\n' || c == '\U{000B}' || c == '\U{000C}' || c == '\r' || c == ' '
    || c == '\U{00A0}' || c == '\U{1680}' || ('\U{2000}' <= c <= '\U{200A}')
    || c == '\U{2028}' || c == '\U{2029}' || c == '\U{202F}' || c == '\U{205F}'
    || c == '\U{3000}' || c == '\U{FEFF}'
  }

  /** A string made only of whitespace (the empty string included): its `trim()` is falsy. */
  predicate IsBlank(s: string) {
    forall i :: 0 <= i < |s| ==> IsJsWhitespace(s[i])
  }

  function TrimStart(s: string): (r: string)
    ensures |r| <= |s| && r == s[|s| - |r|..]
    ensures r == [] || !IsJsWhitespace(r[0])
    ensures forall i :: 0 <= i < |s| - |r| ==> IsJsWhitespace(s[i])
  {
    if s != [] && IsJsWhitespace(s[0]) then
      var r := TrimStart(s[1..]);
      assert s[1..][|s| - 1 - |r|..] == s[|s| - |r|..];
      assert forall i :: 1 <= i < |s| - |r| ==> s[i] == s[1..][i - 1];
      r
    else s
  }

  function TrimEnd(s: string): (r: string)
    ensures |r| <= |s| && r == s[..|r|]
    ensures r == [] || !IsJsWhitespace(r[|r| - 1])
    ensures forall i :: |r| <= i < |s| ==> IsJsWhitespace(s[i])
  {
    if s != [] && IsJsWhitespace(s[|s| - 1]) then
      var r := TrimEnd(s[..|s| - 1]);
      assert s[..|s| - 1][..|r|] == s[..|r|];
      assert forall i :: |r| <= i < |s| - 1 ==> s[i] == s[..|s| - 1][i];
      r
    else s
  }

  /** `s.trim()`: whitespace removed from both ends. */
  function Trim(s: string): string {
    TrimEnd(TrimStart(s))
  }

  /** `s.trim()` is the empty (falsy) string exactly when `s` is blank. */
  lemma TrimEmptyIffBlank(s: string)
    ensures Trim(s) == "" <==> IsBlank(s)
  {
    var t := TrimStart(s);
    if Trim(s) == "" {
      assert TrimEnd(t) == [];
      assert t == [];
    } else {
      var r := Trim(s);
      assert !IsJsWhitespace(r[0]);
      assert r[0] == t[0] == s[|s| - |t|];
    }
  }

  // ---------------------------------------------------------------------------
  // toLowerCase
  // ---------------------------------------------------------------------------

  /** Lower-casing of one character, on the ASCII letters. */
  function LowerChar(c: char): (r: char)
    ensures 'A' <= c <= 'Z' ==> r as int == c as int + 32
    ensures !('A' <= c <= 'Z') ==> r == c
  {
    if 'A' <= c <= 'Z' then (c as int + 32) as char else c
  }

  /** `s.toLowerCase()`, on the ASCII letters; every other character is kept. */
  function ToLower(s: string): (r: string)
    ensures |r| == |s|
    ensures forall i :: 0 <= i < |s| ==> r[i] == LowerChar(s[i])
  {
    seq(|s|, i requires 0 <= i < |s| => LowerChar(s[i]))
  }

  // ---------------------------------------------------------------------------
  // includes
  // ---------------------------------------------------------------------------

  /** `t` occurs in `s` starting at index `i`. */
  predicate OccursAt(s: string, t: string, i: nat) {
    i + |t| <= |s| && s[i..i + |t|] == t
  }

  /** `s.includes(t)`, decided by trying each start position from the left. */
  predicate Includes(s: string, t: string)
    decreases |s|
  {
    if |t| > |s| then false else s[..|t|] == t || Includes(s[1..], t)
  }

  /** `Includes` holds exactly when `t` occurs somewhere in `s`. */
  lemma {:induction false} IncludesIffOccurs(s: string, t: string)
    ensures Includes(s, t) <==> exists i: nat :: OccursAt(s, t, i)
    decreases |s|
  {
    if |t| > |s| {
      forall i: nat ensures !OccursAt(s, t, i) { }
    } else if s[..|t|] == t {
      assert OccursAt(s, t, 0);
    } else {
      IncludesIffOccurs(s[1..], t);
      if Includes(s[1..], t) {
        var i: nat :| OccursAt(s[1..], t, i);
        assert s[1..][i..i + |t|] == s[i + 1..i + 1 + |t|];
        assert OccursAt(s, t, i + 1);
      } else {
        forall i: nat | OccursAt(s, t, i) ensures false {
          if i > 0 {
            assert s[1..][i - 1..i - 1 + |t|] == s[i..i + |t|];
            assert OccursAt(s[1..], t, i - 1);
          }
        }
      }
    }
  }

  /** `s.toLowerCase().includes(t)`. */
  predicate IncludesIgnoringCase(s: string, t: string) {
    Includes(ToLower(s), t)
  }

  // ---------------------------------------------------------------------------
  // split and join
  // ---------------------------------------------------------------------------

  /** `parts.join(sep)` for a one-character separator. */
  function Join(parts: seq<string>, sep: char): string
    decreases |parts|
  {
    if |parts| == 0 then ""
    else if |parts| == 1 then parts[0]
    else parts[0] + [sep] + Join(parts[1..], sep)
  }

  /**
   * `s.split(sep)` for a one-character separator: the pieces between
   * separators, so there is always one piece more than separators.
   */
  function Split(s: string, sep: char): (r: seq<string>)
    ensures |r| >= 1
    ensures forall k :: 0 <= k < |r| ==> sep !in r[k]
    ensures Join(r, sep) == s
    decreases |s|
  {
    if |s| == 0 then [""]
    else
      var rest := Split(s[1..], sep);
      if s[0] == sep then
        assert Join([""] + rest, sep) == [sep] + Join(rest, sep) by {
          assert ([""] + rest)[1..] == rest;
        }
        assert [sep] + s[1..] == s;
        [""] + rest
      else
        var r := [[s[0]] + rest[0]] + rest[1..];
        assert r[1..] == rest[1..];
        assert |rest| >= 2 ==> Join(rest, sep) == rest[0] + [sep] + Join(rest[1..], sep);
        assert [s[0]] + s[1..] == s;
        r
  }

  /** Splitting what was joined gives the parts back, when no part contains the separator. */
  lemma {:induction false} SplitJoin(parts: seq<string>, sep: char)
    requires |parts| >= 1
    requires forall k :: 0 <= k < |parts| ==> sep !in parts[k]
    ensures Split(Join(parts, sep), sep) == parts
    decreases |parts|, |parts[0]|
  {
    if |parts| == 1 {
      SplitNoSeparator(parts[0], sep);
    } else if parts[0] == "" {
      SplitJoin(parts[1..], sep);
      SplitJoinEmptyFirst(parts, sep);
    } else {
      var shorter := [parts[0][1..]] + parts[1..];
      assert sep !in parts[0][1..];
      forall k | 0 <= k < |shorter| ensures sep !in shorter[k] {
        if k > 0 { assert shorter[k] == parts[k]; }
      }
      SplitJoin(shorter, sep);
      SplitJoinCharFirst(parts, sep);
    }
  }

  /** The step of `SplitJoin` for an empty first part: the text starts with the separator. */
  lemma SplitJoinEmptyFirst(parts: seq<string>, sep: char)
    requires |parts| >= 2 && parts[0] == ""
    requires Split(Join(parts[1..], sep), sep) == parts[1..]
    ensures Split(Join(parts, sep), sep) == parts
  {
    var rest := parts[1..];
    var s := Join(parts, sep);
    assert s == [sep] + Join(rest, sep);
    assert s[1..] == Join(rest, sep);
    assert [""] + rest == parts;
  }

  /** The step of `SplitJoin` for a first part that starts with a character other than the separator. */
  lemma SplitJoinCharFirst(parts: seq<string>, sep: char)
    requires |parts| >= 2 && parts[0] != "" && parts[0][0] != sep
    requires Split(Join([parts[0][1..]] + parts[1..], sep), sep) == [parts[0][1..]] + parts[1..]
    ensures Split(Join(parts, sep), sep) == parts
  {
    var c := parts[0][0];
    var shorter := [parts[0][1..]] + parts[1..];
    assert shorter[1..] == parts[1..];
    var s := Join(parts, sep);
    assert s == parts[0] + [sep] + Join(parts[1..], sep);
    assert Join(shorter, sep) == parts[0][1..] + [sep] + Join(parts[1..], sep);
    assert s == [c] + Join(shorter, sep);
    assert s[1..] == Join(shorter, sep);
    assert [c] + parts[0][1..] == parts[0];
    assert [[c] + shorter[0]] + shorter[1..] == parts;
  }

  /** A string without the separator splits into itself alone. */
  lemma {:induction false} SplitNoSeparator(s: string, sep: char)
    requires sep !in s
    ensures Split(s, sep) == [s]
    decreases |s|
  {
    if |s| > 0 {
      assert sep !in s[1..];
      SplitNoSeparator(s[1..], sep);
      assert [s[0]] + s[1..] == s;
    }
  }

  /** A string holding the separator splits into at least two pieces. */
  lemma SplitAtSeparator(s: string, sep: char)
    requires sep in s
    ensures |Split(s, sep)| >= 2
  {
    var r := Split(s, sep);
    var first := r[0];
    assert |r| == 1 ==> Join(r, sep) == first;
  }

  /** The text after the last separator (`s.split(sep).pop()`): `s` itself when there is none. */
  function AfterLast(s: string, sep: char): string {
    var pieces := Split(s, sep);
    pieces[|pieces| - 1]
  }

  /** What `AfterLast` returns: the whole string without a separator, else the tail after the last one. */
  lemma {:induction false} AfterLastIsSuffix(s: string, sep: char)
    ensures sep !in AfterLast(s, sep)
    ensures sep !in s ==> AfterLast(s, sep) == s
    ensures sep in s ==> exists i :: 0 <= i < |s| && s[i] == sep && AfterLast(s, sep) == s[i + 1..]
    decreases |s|
  {
    if sep !in s {
      SplitNoSeparator(s, sep);
    } else if sep in s[1..] {
      AfterLastIsSuffix(s[1..], sep);
      AfterLastDropsFirst(s, sep);
      var i :| 0 <= i < |s[1..]| && s[1..][i] == sep && AfterLast(s[1..], sep) == s[1..][i + 1..];
      assert s[1..][i + 1..] == s[i + 2..];
      assert s[i + 1] == sep;
    } else {
      SplitNoSeparator(s[1..], sep);
      assert s[0] == sep;
      assert AfterLast(s, sep) == s[1..];
    }
  }

  /** When the separator occurs after the first character, the first character does not change the last piece. */
  lemma AfterLastDropsFirst(s: string, sep: char)
    requires |s| > 0 && sep in s[1..]
    ensures AfterLast(s, sep) == AfterLast(s[1..], sep)
  {
    SplitAtSeparator(s[1..], sep);
    var rest := Split(s[1..], sep);
    var pieces := Split(s, sep);
    if s[0] == sep {
      assert pieces == [""] + rest;
    } else {
      assert pieces == [[s[0]] + rest[0]] + rest[1..];
    }
    assert pieces[|pieces| - 1] == rest[|rest| - 1];
  }

  /** The text after a separator that is followed by no other separator is what `AfterLast` returns. */
  lemma AfterLastOfJoined(x: string, sep: char, y: string)
    requires sep !in y
    ensures AfterLast(x + [sep] + y, sep) == y
  {
    var s := x + [sep] + y;
    assert s[|x|] == sep;
    LastIndexOfMatchesSplit(s, sep);
    forall j | |x| < j < |s|
      ensures s[j] != sep
    {
      assert s[j] == y[j - |x| - 1];
    }
    assert LastIndexOf(s, sep) == |x|;
    assert s[|x| + 1..] == y;
  }

  // ---------------------------------------------------------------------------
  // substring, slice, filter
  // ---------------------------------------------------------------------------

  /** `s.substring(0, n)` for `n >= 0`. */
  function Prefix(s: string, n: nat): (r: string)
    ensures |r| == if n < |s| then n else |s|
    ensures r == s[..|r|]
  {
    if n < |s| then s[..n] else s
  }

  /** `s.lastIndexOf(c)` for one character: its last position, or -1 when it does not occur. */
  function LastIndexOf(s: string, c: char): (r: int)
    ensures -1 <= r < |s|
    ensures r >= 0 ==> s[r] == c
    ensures forall j :: r < j < |s| ==> s[j] != c
    decreases |s|
  {
    if s == [] then -1
    else if s[|s| - 1] == c then |s| - 1
    else LastIndexOf(s[..|s| - 1], c)
  }

  /** `s.substring(0, end)`: a negative end counts as 0, an end past the string as its length. */
  function SubstringTo(s: string, end: int): (r: string)
    ensures |r| == if end <= 0 then 0 else if end < |s| then end else |s|
    ensures r == s[..|r|]
  {
    if end <= 0 then "" else if end < |s| then s[..end] else s
  }

  /** A sequence is what comes before a position, the element there, and what comes after. */
  lemma SplitAround<T>(s: seq<T>, i: nat)
    requires i < |s|
    ensures s[..i] + [s[i]] + s[i + 1..] == s
  {
  }

  /** The text after `lastIndexOf` is what `split(c).pop()` returns. */
  lemma LastIndexOfMatchesSplit(s: string, c: char)
    requires c in s
    ensures s[LastIndexOf(s, c) + 1..] == AfterLast(s, c)
  {
    AfterLastIsSuffix(s, c);
    var i :| 0 <= i < |s| && s[i] == c && AfterLast(s, c) == s[i + 1..];
    var r := LastIndexOf(s, c);
    forall j | i < j < |s|
      ensures s[j] != c
    {
      assert s[j] == s[i + 1..][j - i - 1];
    }
    assert r >= i by {
      assert s[i] == c;
    }
    assert r <= i;
  }

  /** `xs.slice(-n)`: the last `n` elements, or all of them when there are fewer (or when `n` is 0). */
  function SliceFromEnd<T>(xs: seq<T>, n: nat): (r: seq<T>)
    ensures n == 0 || n >= |xs| ==> r == xs
    ensures 0 < n < |xs| ==> |r| == n
    ensures r == xs[|xs| - |r|..]
  {
    if n == 0 || n >= |xs| then xs else xs[|xs| - n..]
  }

  /** `xs.filter(p)`. */
  function Filter<T>(xs: seq<T>, p: T -> bool): (r: seq<T>)
    ensures |r| <= |xs|
    ensures forall k :: 0 <= k < |r| ==> p(r[k])
    ensures forall k :: 0 <= k < |r| ==> r[k] in xs
    ensures forall k :: 0 <= k < |xs| && p(xs[k]) ==> xs[k] in r
    decreases |xs|
  {
    if xs == [] then []
    else (if p(xs[0]) then [xs[0]] else []) + Filter(xs[1..], p)
  }

  /** Every element of `slice(-n)` is an element of the list. */
  lemma SliceFromEndMember<T>(xs: seq<T>, n: nat, x: T)
    ensures x in SliceFromEnd(xs, n) ==> x in xs
  {
    var r := SliceFromEnd(xs, n);
    if x in r {
      var k :| 0 <= k < |r| && r[k] == x;
      assert x == xs[|xs| - |r| + k];
    }
  }

  /** An element is kept by `filter` iff it is in the list and satisfies the predicate. */
  lemma FilterMember<T>(xs: seq<T>, p: T -> bool, x: T)
    ensures x in Filter(xs, p) <==> x in xs && p(x)
  {
    var r := Filter(xs, p);
    if x in r {
      var k :| 0 <= k < |r| && r[k] == x;
    }
    if x in xs {
      var k :| 0 <= k < |xs| && xs[k] == x;
    }
  }

  /** The positions `i` at or after `from` with `p(xs[i])`, in increasing order. */
  function Positions<T>(xs: seq<T>, p: T -> bool, from: nat): (ix: seq<nat>)
    requires from <= |xs|
    ensures forall k :: 0 <= k < |ix| ==> from <= ix[k] < |xs| && p(xs[ix[k]])
    ensures forall k, l :: 0 <= k < l < |ix| ==> ix[k] < ix[l]
    decreases |xs| - from
  {
    if from == |xs| then []
    else (if p(xs[from]) then [from] else []) + Positions(xs, p, from + 1)
  }

  /**
   * `filter` keeps exactly the elements that satisfy `p`, in their original
   * order: its result is `xs` read at the increasing positions `Positions(xs, p, 0)`.
   */
  lemma FilterKeepsOrder<T>(xs: seq<T>, p: T -> bool)
    ensures var ix := Positions(xs, p, 0);
      |Filter(xs, p)| == |ix| && forall k :: 0 <= k < |ix| ==> Filter(xs, p)[k] == xs[ix[k]]
  {
    FilterFrom(xs, p, 0);
    assert xs[0..] == xs;
  }

  lemma {:induction false} FilterFrom<T>(xs: seq<T>, p: T -> bool, from: nat)
    requires from <= |xs|
    ensures var ix := Positions(xs, p, from);
      |Filter(xs[from..], p)| == |ix| && forall k :: 0 <= k < |ix| ==> Filter(xs[from..], p)[k] == xs[ix[k]]
    decreases |xs| - from
  {
    if from < |xs| {
      FilterFrom(xs, p, from + 1);
      var rest := xs[from..];
      assert rest[0] == xs[from] && rest[1..] == xs[from + 1..];
      var head: seq<T> := if p(xs[from]) then [xs[from]] else [];
      var headIx: seq<nat> := if p(xs[from]) then [from] else [];
      assert Filter(rest, p) == head + Filter(xs[from + 1..], p);
      assert Positions(xs, p, from) == headIx + Positions(xs, p, from + 1);
    }
  }

  // ---------------------------------------------------------------------------
  // decimal digits
  // ---------------------------------------------------------------------------

  /** The ASCII digits, which are what `\d` matches in a JavaScript regular expression. */
  predicate IsDigit(c: char) {
    '0' <= c <= '9'
  }

  predicate AllDigits(s: string) {
    forall i :: 0 <= i < |s| ==> IsDigit(s[i])
  }

  /** The number a string of decimal digits denotes (leading zeros allowed). */
  function DigitsValue(s: string): nat
    requires AllDigits(s)
    decreases |s|
  {
    if s == [] then 0
    else DigitsValue(s[..|s| - 1]) * 10 + (s[|s| - 1] as int - '0' as int)
  }

  function Pow10(n: nat): (r: nat)
    ensures r >= 1
  {
    if n == 0 then 1 else 10 * Pow10(n - 1)
  }

  /** A string of `n` digits denotes a number below `10^n`. */
  lemma {:induction false} DigitsValueBound(s: string)
    requires AllDigits(s)
    ensures DigitsValue(s) < Pow10(|s|)
    decreases |s|
  {
    if s != [] {
      var init := s[..|s| - 1];
      DigitsValueBound(init);
      assert DigitsValue(init) + 1 <= Pow10(|init|);
      assert (DigitsValue(init) + 1) * 10 <= Pow10(|init|) * 10;
    }
  }

  function DigitChar(d: nat): (c: char)
    requires d < 10
    ensures IsDigit(c) && c as int - '0' as int == d
  {
    ('0' as int + d) as char
  }

  /** `n.toString()` for a non-negative integer: its decimal digits, without leading zeros. */
  function NatToString(n: nat): (r: string)
    ensures |r| >= 1 && AllDigits(r)
    ensures DigitsValue(r) == n
    ensures |r| > 1 ==> r[0] != '0'
    decreases n
  {
    if n < 10 then [DigitChar(n)]
    else
      var r := NatToString(n / 10) + [DigitChar(n % 10)];
      assert r[..|r| - 1] == NatToString(n / 10);
      r
  }
}
