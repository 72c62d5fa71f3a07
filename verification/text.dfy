/**
 * String primitives the application leans on: Python's `str.strip`, `str.lower`,
 * `str.split(c)[0]`, `str.replace(c, '')`, the `in` substring test, code-point
 * string ordering, decimal rendering of integers, and JavaScript's `Array.join`.
 */
module Text {

  /** Python's `str.isspace()` for one character (the characters `str.strip()` removes). */
  predicate IsSpace(c: char) {
    || c == ' '
    || ('\t' <= c <= '\r')
    || ('\U{1c}' <= c <= '\U{1f}')
    || c == '\U{85}' || c == '\U{a0}' || c == '\U{1680}'
    || ('\U{2000}' <= c <= '\U{200a}')
    || c == '\U{2028}' || c == '\U{2029}' || c == '\U{202f}' || c == '\U{205f}' || c == '\U{3000}'
  }

  predicate IsDigit(c: char) {
    '0' <= c <= '9'
  }

  predicate AllDigits(s: string) {
    forall i :: 0 <= i < |s| ==> IsDigit(s[i])
  }

  predicate NoSpaceAtEnds(s: string) {
    s == [] || (!IsSpace(s[0]) && !IsSpace(s[|s| - 1]))
  }

  // ---------------------------------------------------------------- strip

  /** Drops leading whitespace. */
  function StripLeft(s: string): (r: string)
    ensures |r| <= |s| && r == s[|s| - |r|..]
    ensures forall i :: 0 <= i < |s| - |r| ==> IsSpace(s[i])
    ensures r == [] || !IsSpace(r[0])
  {
    if |s| > 0 && IsSpace(s[0]) then StripLeft(s[1..]) else s
  }

  /** Drops trailing whitespace. */
  function StripRight(s: string): (r: string)
    ensures |r| <= |s| && r == s[..|r|]
    ensures forall i :: |r| <= i < |s| ==> IsSpace(s[i])
    ensures r == [] || !IsSpace(r[|r| - 1])
  {
    if |s| > 0 && IsSpace(s[|s| - 1]) then StripRight(s[..|s| - 1]) else s
  }

  /** Python's `s.strip()`: the longest middle slice with no whitespace at either end. */
  function Strip(s: string): (r: string)
    ensures NoSpaceAtEnds(r)
    ensures Contains(s, r)
  {
    var l := StripLeft(s);
    var r := StripRight(l);
    assert OccursAt(s, r, |s| - |l|);
    r
  }

  /** Only whitespace. */
  predicate AllSpace(s: string) {
    forall i :: 0 <= i < |s| ==> IsSpace(s[i])
  }

  lemma {:induction false} StripLeftSkipsSpace(w: string, s: string)
    requires AllSpace(w)
    ensures StripLeft(w + s) == StripLeft(s)
    decreases |w|
  {
    if w == [] {
      assert w + s == s;
    } else {
      assert (w + s)[0] == w[0];
      assert (w + s)[1..] == w[1..] + s;
      StripLeftSkipsSpace(w[1..], s);
    }
  }

  lemma {:induction false} StripRightSkipsSpace(s: string, w: string)
    requires AllSpace(w)
    ensures StripRight(s + w) == StripRight(s)
    decreases |w|
  {
    if w == [] {
      assert s + w == s;
    } else {
      assert (s + w)[|s + w| - 1] == w[|w| - 1];
      assert (s + w)[..|s + w| - 1] == s + w[..|w| - 1];
      StripRightSkipsSpace(s, w[..|w| - 1]);
    }
  }

  /** Once the leading whitespace is gone, appending text does not reach back into it. */
  lemma {:induction false} StripLeftAppend(s: string, t: string)
    requires StripLeft(s) != []
    ensures StripLeft(s + t) == StripLeft(s) + t
    decreases |s|
  {
    assert s != [];
    assert (s + t)[0] == s[0];
    if IsSpace(s[0]) {
      assert (s + t)[1..] == s[1..] + t;
      StripLeftAppend(s[1..], t);
    }
  }

  /** Surrounding whitespace never changes what `strip` returns. */
  lemma StripIgnoresSurroundingSpace(w1: string, s: string, w2: string)
    requires AllSpace(w1) && AllSpace(w2)
    ensures Strip(w1 + s + w2) == Strip(s)
  {
    assert w1 + s + w2 == w1 + (s + w2);
    StripLeftSkipsSpace(w1, s + w2);
    var l := StripLeft(s);
    if l == [] {
      assert AllSpace(s);
      StripLeftSkipsSpace(s, w2);
      StripLeftSkipsSpace(w2, []);
      assert w2 + [] == w2;
    } else {
      StripLeftAppend(s, w2);
      StripRightSkipsSpace(l, w2);
    }
  }

  // ---------------------------------------------------------------- lower

  /** `str.lower()` on ASCII letters; every other character is left as it is. */
  function LowerChar(c: char): (r: char)
    ensures 'A' <= c <= 'Z' ==> 'a' <= r <= 'z' && r as int == c as int + 32
    ensures !('A' <= c <= 'Z') ==> r == c
  {
    if 'A' <= c <= 'Z' then (c as int + 32) as char else c
  }

  function Lower(s: string): (r: string)
    ensures |r| == |s|
    ensures forall i :: 0 <= i < |s| ==> r[i] == LowerChar(s[i])
  {
    if s == [] then [] else [LowerChar(s[0])] + Lower(s[1..])
  }

  // ---------------------------------------------------------------- digits

  function DigitChar(d: nat): (c: char)
    requires d < 10
    ensures IsDigit(c)
  {
    ('0' as int + d) as char
  }

  function DigitValue(c: char): (d: nat)
    requires IsDigit(c)
    ensures d < 10
  {
    c as int - '0' as int
  }

  lemma DigitRoundTrip(d: nat)
    requires d < 10
    ensures DigitValue(DigitChar(d)) == d
  {
  }

  /** The number a string of ASCII decimal digits denotes (leading zeros allowed). */
  function DigitsValue(s: string): nat
    requires AllDigits(s)
  {
    if s == [] then 0 else 10 * DigitsValue(s[..|s| - 1]) + DigitValue(s[|s| - 1])
  }

  /** Python's `str(n)` for a non-negative integer. */
  function Decimal(n: nat): (r: string)
    ensures 1 <= |r| && AllDigits(r)
    ensures DigitsValue(r) == n
    ensures r[0] == '0' ==> n == 0 && |r| == 1
  {
    if n < 10 then [DigitChar(n)]
    else
      var prefix := Decimal(n / 10);
      var r := prefix + [DigitChar(n % 10)];
      assert r[..|r| - 1] == prefix;
      r
  }

  function Zeros(k: nat): (r: string)
    ensures |r| == k && AllDigits(r)
    ensures forall i :: 0 <= i < k ==> r[i] == '0'
  {
    if k == 0 then [] else ['0'] + Zeros(k - 1)
  }

  /** Left-pads with '0' up to `width` characters, as Python's `{:0Nd}` does for a non-negative value. */
  function ZeroPad(s: string, width: nat): (r: string)
    ensures |r| == if |s| < width then width else |s|
    ensures r == Zeros(|r| - |s|) + s
  {
    if |s| < width then Zeros(width - |s|) + s else Zeros(0) + s
  }

  /** Leading zeros do not change the value of a digit string. */
  lemma {:induction false} LeadingZerosValue(k: nat, s: string)
    requires AllDigits(s)
    ensures AllDigits(Zeros(k) + s)
    ensures DigitsValue(Zeros(k) + s) == DigitsValue(s)
    decreases |s|
  {
    var z := Zeros(k);
    assert AllDigits(z + s);
    if s == [] {
      assert z + s == z;
      ZerosValue(k);
    } else {
      var t := z + s;
      assert t[..|t| - 1] == z + s[..|s| - 1];
      assert t[|t| - 1] == s[|s| - 1];
      LeadingZerosValue(k, s[..|s| - 1]);
    }
  }

  lemma {:induction false} ZerosValue(k: nat)
    ensures DigitsValue(Zeros(k)) == 0
  {
    if k > 0 {
      var z := Zeros(k);
      assert z[..k - 1] == Zeros(k - 1);
      ZerosValue(k - 1);
    }
  }

  // ---------------------------------------------------------------- substrings and slices

  predicate StartsWith(s: string, prefix: string) {
    |prefix| <= |s| && s[..|prefix|] == prefix
  }

  /** `p` occurs in `s` starting at index `i`. */
  predicate OccursAt(s: string, p: string, i: int) {
    0 <= i <= |s| - |p| && s[i..i + |p|] == p
  }

  /** Python's `p in s` for strings. */
  predicate Contains(s: string, p: string) {
    exists i | 0 <= i <= |s| - |p| :: OccursAt(s, p, i)
  }

  /** Containment is transitive: whatever occurs in a substring of `t` occurs in `t`. */
  lemma ContainsTransitive(p: string, s: string, t: string)
    requires Contains(s, p) && Contains(t, s)
    ensures Contains(t, p)
  {
    var i :| 0 <= i <= |s| - |p| && OccursAt(s, p, i);
    var j :| 0 <= j <= |t| - |s| && OccursAt(t, s, j);
    forall k | 0 <= k < |p|
      ensures t[j + i + k] == p[k]
    {
      assert s[i..i + |p|][k] == s[i + k];
      assert t[j..j + |s|][i + k] == t[j + (i + k)];
    }
    assert t[j + i..j + i + |p|] == p;
    assert OccursAt(t, p, j + i);
  }

  /** Python's `s.replace(c, '')` for a single character `c`. */
  function RemoveChar(s: string, c: char): (r: string)
    ensures c !in r
    ensures |r| <= |s|
    ensures c !in s ==> r == s
    ensures forall x :: x != c ==> multiset(r)[x] == multiset(s)[x]
  {
    if s == [] then []
    else
      assert s == [s[0]] + s[1..];
      if s[0] == c then RemoveChar(s[1..], c)
      else [s[0]] + RemoveChar(s[1..], c)
  }

  lemma {:induction false} RemoveCharAppend(a: string, b: string, c: char)
    ensures RemoveChar(a + b, c) == RemoveChar(a, c) + RemoveChar(b, c)
    decreases |a|
  {
    if a == [] {
      assert a + b == b;
    } else {
      assert (a + b)[0] == a[0];
      assert (a + b)[1..] == a[1..] + b;
      RemoveCharAppend(a[1..], b, c);
    }
  }

  /** A `YYYY-MM-DD` date, its parts free of dashes, keeps exactly its parts in order. */
  lemma DashesDropped(y: string, m: string, d: string)
    requires '-' !in y && '-' !in m && '-' !in d
    ensures RemoveChar(y + "-" + m + "-" + d, '-') == y + m + d
  {
    DashDropped(y, m);
    DashDropped(y + "-" + m, d);
  }

  /** Removing dashes across one dash joins what is left of either side. */
  lemma DashDropped(a: string, b: string)
    ensures RemoveChar(a + "-" + b, '-') == RemoveChar(a, '-') + RemoveChar(b, '-')
  {
    assert RemoveChar("-", '-') == [] by {
      assert "-"[1..] == [];
    }
    RemoveCharAppend(a, "-", '-');
    RemoveCharAppend(a + "-", b, '-');
  }

  /** Python's `s.split(c)[0]`: everything before the first `c` (all of `s` when there is none). */
  function BeforeFirst(s: string, c: char): (r: string)
    ensures c !in r
    ensures StartsWith(s, r)
    ensures |r| < |s| ==> s[|r|] == c
  {
    if s == [] || s[0] == c then [] else [s[0]] + BeforeFirst(s[1..], c)
  }

  lemma BeforeFirstOfNoSeparator(s: string, c: char)
    requires c !in s
    ensures BeforeFirst(s, c) == s
  {
  }

  lemma {:induction false} BeforeFirstAppend(a: string, b: string, c: char)
    requires c !in a
    ensures BeforeFirst(a + [c] + b, c) == a
    decreases |a|
  {
    if a != [] {
      assert (a + [c] + b)[1..] == a[1..] + [c] + b;
      BeforeFirstAppend(a[1..], b, c);
    } else {
      assert (a + [c] + b)[0] == c;
    }
  }

  // ---------------------------------------------------------------- ordering

  /** Python's `a < b` on strings: lexicographic by code point. */
  predicate LexLess(a: string, b: string) {
    if a == [] then b != []
    else if b == [] then false
    else a[0] < b[0] || (a[0] == b[0] && LexLess(a[1..], b[1..]))
  }

  predicate LexLessEq(a: string, b: string) {
    a == b || LexLess(a, b)
  }

  lemma {:induction false} LexLessIrreflexive(a: string)
    ensures !LexLess(a, a)
  {
    if a != [] {
      LexLessIrreflexive(a[1..]);
    }
  }

  lemma {:induction false} LexLessTransitive(a: string, b: string, c: string)
    requires LexLess(a, b) && LexLess(b, c)
    ensures LexLess(a, c)
  {
    if a != [] && b != [] && c != [] && a[0] == b[0] && b[0] == c[0] {
      LexLessTransitive(a[1..], b[1..], c[1..]);
    }
  }

  lemma {:induction false} LexLessTotal(a: string, b: string)
    ensures a == b || LexLess(a, b) || LexLess(b, a)
  {
    if a != [] && b != [] && a[0] == b[0] {
      LexLessTotal(a[1..], b[1..]);
      if a[1..] == b[1..] {
        assert a == [a[0]] + a[1..] && b == [b[0]] + b[1..];
      }
    }
  }

  lemma LexLessAsymmetric(a: string, b: string)
    requires LexLess(a, b)
    ensures !LexLess(b, a)
  {
    if LexLess(b, a) {
      LexLessTransitive(a, b, a);
      LexLessIrreflexive(a);
    }
  }

  // ---------------------------------------------------------------- join and split

  /** JavaScript's `xs.join(sep)` (and Python's `sep.join(xs)`) for a one-character separator. */
  function Join(xs: seq<string>, sep: char): string {
    if |xs| == 0 then ""
    else if |xs| == 1 then xs[0]
    else xs[0] + [sep] + Join(xs[1..], sep)
  }

  /** Python's `s.split(sep)`: the pieces between separators; never empty. */
  function Split(s: string, sep: char): (r: seq<string>)
    ensures |r| >= 1
    ensures forall i :: 0 <= i < |r| ==> sep !in r[i]
    decreases |s|
  {
    var head := BeforeFirst(s, sep);
    if |head| == |s| then [s] else [head] + Split(s[|head| + 1..], sep)
  }

  /** Splitting undoes joining when no piece holds the separator. */
  lemma {:induction false} SplitJoin(xs: seq<string>, sep: char)
    requires |xs| >= 1
    requires forall i :: 0 <= i < |xs| ==> sep !in xs[i]
    ensures Split(Join(xs, sep), sep) == xs
    decreases |xs|
  {
    if |xs| == 1 {
      BeforeFirstOfNoSeparator(xs[0], sep);
    } else {
      var rest := Join(xs[1..], sep);
      var s := xs[0] + [sep] + rest;
      BeforeFirstAppend(xs[0], rest, sep);
      assert s[|xs[0]| + 1..] == rest;
      SplitJoin(xs[1..], sep);
      assert [xs[0]] + xs[1..] == xs;
    }
  }
}
