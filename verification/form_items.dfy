/**
 * How the invoice create and edit routes (routes/invoice.py) turn the posted form
 * into line items: collect the indices of `line_items[IDX][field]` keys, visit
 * them in string order, drop entries without a service name, and convert the
 * quantity and rate with Python's `int()` and `float()`.
 */
module FormItems {
  import opened Wrappers
  import opened Text
  import opened Schema
  import opened Invoices

  /**
   * The posted form in order. `request.form.to_dict()` keeps the first value of
   * each key, so a lookup returns the first matching pair.
   */
  type Form = seq<(string, string)>

  function Get(form: Form, key: string): (r: Option<string>)
    ensures r.None? <==> forall k :: 0 <= k < |form| ==> form[k].0 != key
    ensures r.Some? ==> exists k :: 0 <= k < |form| && form[k] == (key, r.value) && forall j :: 0 <= j < k ==> form[j].0 != key
  {
    if form == [] then None
    else if form[0].0 == key then Some(form[0].1)
    else
      var r := Get(form[1..], key);
      assert r.Some? ==> exists k :: 0 <= k < |form| && form[k] == (key, r.value) && forall j :: 0 <= j < k ==> form[j].0 != key by {
        if r.Some? {
          var k :| 0 <= k < |form[1..]| && form[1..][k] == (key, r.value) && forall j :: 0 <= j < k ==> form[1..][j].0 != key;
          assert form[k + 1] == (key, r.value);
          forall j | 0 <= j < k + 1 ensures form[j].0 != key {
            if j > 0 {
              assert form[j] == form[1..][j - 1];
            }
          }
        }
      }
      r
  }

  const LINE_ITEMS := "line_items["

  /** The key of one field of one entry: `line_items[IDX][field]`. */
  function FieldKey(index: string, field: string): string {
    LINE_ITEMS + index + "][" + field + "]"
  }

  /** `key.startswith('line_items[') and '][' in key`. */
  predicate IsItemKey(key: string) {
    StartsWith(key, LINE_ITEMS) && Contains(key, "][")
  }

  /**
   * `key.split('[')[1].split(']')[0]`: the text after the first `[`, up to the
   * next `[` or `]`, whichever comes first. `line_items` holds no `[`, so the
   * first `[` is the last character of the prefix.
   */
  function IndexOf(key: string): (r: string)
    requires IsItemKey(key)
    ensures '[' !in r && ']' !in r
    ensures |LINE_ITEMS| + |r| < |key| && key[..|LINE_ITEMS| + |r|] == LINE_ITEMS + r
    ensures key[|LINE_ITEMS| + |r|] == '[' || key[|LINE_ITEMS| + |r|] == ']'
  {
    BracketFreeRun(key);
    BeforeFirst(BeforeFirst(key[|LINE_ITEMS|..], '['), ']')
  }

  /** The index text is the run after the prefix up to the first bracket, which an item key always has. */
  lemma BracketFreeRun(key: string)
    requires IsItemKey(key)
    ensures var r := BeforeFirst(BeforeFirst(key[|LINE_ITEMS|..], '['), ']');
      && '[' !in r && ']' !in r
      && |LINE_ITEMS| + |r| < |key| && key[..|LINE_ITEMS| + |r|] == LINE_ITEMS + r
      && (key[|LINE_ITEMS| + |r|] == '[' || key[|LINE_ITEMS| + |r|] == ']')
  {
    var i :| 0 <= i <= |key| - |"]["| && OccursAt(key, "][", i);
    OccurrenceStart(key, "][", i);
    assert ']' !in LINE_ITEMS;
    RunAfterPrefix(LINE_ITEMS, key, i);
  }

  lemma OccurrenceStart(s: string, p: string, i: int)
    requires OccursAt(s, p, i) && p != []
    ensures s[i] == p[0]
  {
    assert s[i..i + |p|][0] == s[i];
  }

  /**
   * After a prefix without `]`, in text that has a `]` somewhere, the run up
   * to the first `[` or `]` ends before the text does, at a bracket.
   */
  lemma RunAfterPrefix(prefix: string, key: string, i: int)
    requires StartsWith(key, prefix) && ']' !in prefix
    requires 0 <= i < |key| && key[i] == ']'
    ensures var r := BeforeFirst(BeforeFirst(key[|prefix|..], '['), ']');
      && '[' !in r && ']' !in r
      && |prefix| + |r| < |key| && key[..|prefix| + |r|] == prefix + r
      && (key[|prefix| + |r|] == '[' || key[|prefix| + |r|] == ']')
  {
    var rest := key[|prefix|..];
    var a := BeforeFirst(rest, '[');
    var r := BeforeFirst(a, ']');
    assert forall k :: 0 <= k < |prefix| ==> key[k] == prefix[k];
    assert rest[i - |prefix|] == ']';
    assert ']' in rest;
    assert r == a[..|r|] && a == rest[..|a|];
    forall k | 0 <= k < |r| ensures r[k] != '[' {
      assert r[k] == a[k];
    }
    assert key == prefix + rest;
    assert key[..|prefix| + |r|] == prefix + r;
    assert key[|prefix| + |r|] == rest[|r|];
  }

  /** The index of a well-formed field key is the index it was built from. */
  lemma IndexOfFieldKey(index: string, field: string)
    requires '[' !in index && ']' !in index
    ensures IsItemKey(FieldKey(index, field))
    ensures IndexOf(FieldKey(index, field)) == index
  {
    var key := FieldKey(index, field);
    assert key[..|LINE_ITEMS|] == LINE_ITEMS;
    assert OccursAt(key, "][", |LINE_ITEMS| + |index|);
    var rest := key[|LINE_ITEMS|..];
    assert rest == index + "]" + ("[" + field + "]");
    var s := BeforeFirst(rest, '[');
    assert rest == (index + "]") + ['['] + (field + "]");
    assert '[' !in index + "]";
    BeforeFirstAppend(index + "]", field + "]", '[');
    assert s == index + [']'] + [];
    BeforeFirstAppend(index, [], ']');
  }

  /** A key whose index text is cut short by a second `[`. */
  lemma IndexOfStopsAtBracket()
    ensures IsItemKey("line_items[a[b][c]")
    ensures IndexOf("line_items[a[b][c]") == "a"
  {
    var key := "line_items[a[b][c]";
    assert key[..|LINE_ITEMS|] == LINE_ITEMS;
    assert OccursAt(key, "][", 14);
    var rest := key[|LINE_ITEMS|..];
    assert rest == "a" + ['['] + "b][c]";
    BeforeFirstAppend("a", "b][c]", '[');
    BeforeFirstOfNoSeparator("a", ']');
  }

  // ---------------------------------------------------------------- sorted(set(...))

  /** Strictly increasing in Python's string order, hence also free of duplicates. */
  predicate StrictlySorted(s: seq<string>) {
    forall i, j :: 0 <= i < j < |s| ==> LexLess(s[i], s[j])
  }

  /** Adds `x` to a strictly sorted sequence unless it is already there. */
  function InsertUnique(x: string, s: seq<string>): (r: seq<string>)
    requires StrictlySorted(s)
    ensures StrictlySorted(r)
    ensures forall y :: y in r <==> y == x || y in s
  {
    if s == [] then [x]
    else if x == s[0] then s
    else if LexLess(x, s[0]) then
      assert StrictlySorted([x] + s) by {
        forall j | 0 < j < |s| ensures LexLess(x, s[j]) {
          LexLessTransitive(x, s[0], s[j]);
        }
      }
      [x] + s
    else
      LexLessTotal(x, s[0]);
      var rest := InsertUnique(x, s[1..]);
      assert StrictlySorted([s[0]] + rest) by {
        forall j | 0 <= j < |rest| ensures LexLess(s[0], rest[j]) {
          if rest[j] != x {
            assert rest[j] in s[1..];
          }
        }
      }
      [s[0]] + rest
  }

  /** Python's `sorted(set(xs))` for strings. */
  function SortedSet(xs: seq<string>): (r: seq<string>)
    ensures StrictlySorted(r)
    ensures forall y :: y in r <==> y in xs
  {
    if xs == [] then []
    else
      var init := SortedSet(xs[..|xs| - 1]);
      assert xs == xs[..|xs| - 1] + [xs[|xs| - 1]];
      InsertUnique(xs[|xs| - 1], init)
  }

  /** A strictly sorted sequence is determined by its elements: `SortedSet` is the only possible answer. */
  lemma {:induction false} StrictlySortedUnique(a: seq<string>, b: seq<string>)
    requires StrictlySorted(a) && StrictlySorted(b)
    requires forall y :: y in a <==> y in b
    ensures a == b
    decreases |a|
  {
    assert (a == []) == (b == []) by {
      if a != [] {
        assert a[0] in b;
      }
      if b != [] {
        assert b[0] in a;
      }
    }
    if a != [] {
      assert a[0] in b && b[0] in a;
      if a[0] != b[0] {
        var i :| 0 <= i < |b| && b[i] == a[0];
        var j :| 0 <= j < |a| && a[j] == b[0];
        assert LexLess(b[0], a[0]) && LexLess(a[0], b[0]);
        LexLessAsymmetric(a[0], b[0]);
      }
      forall y ensures y in a[1..] <==> y in b[1..] {
        if y in a[1..] {
          var i :| 0 <= i < |a[1..]| && a[1..][i] == y;
          assert LexLess(a[0], a[i + 1]) && a[i + 1] == y && y in a;
          LexLessIrreflexive(y);
          var m :| 0 <= m < |b| && b[m] == y;
          assert m != 0;
          assert b[1..][m - 1] == y;
        }
        if y in b[1..] {
          var i :| 0 <= i < |b[1..]| && b[1..][i] == y;
          assert LexLess(b[0], b[i + 1]) && b[i + 1] == y && y in b;
          LexLessIrreflexive(y);
          var m :| 0 <= m < |a| && a[m] == y;
          assert m != 0;
          assert a[1..][m - 1] == y;
        }
      }
      StrictlySortedUnique(a[1..], b[1..]);
      assert a == [a[0]] + a[1..] && b == [b[0]] + b[1..];
    }
  }

  /** Indices sort as strings: entry "10" is visited before entry "2". */
  lemma TenBeforeTwo()
    ensures SortedSet(["2", "10", "2"]) == ["10", "2"]
  {
    assert LexLess("10", "2");
    StrictlySortedUnique(SortedSet(["2", "10", "2"]), ["10", "2"]);
  }

  // ---------------------------------------------------------------- indices

  /** The keys of the form, in order (with repeats). */
  function Keys(form: Form): (r: seq<string>)
    ensures |r| == |form|
    ensures forall k :: 0 <= k < |form| ==> r[k] == form[k].0
  {
    if form == [] then [] else [form[0].0] + Keys(form[1..])
  }

  /** The form's keys that name a line-item field. */
  function ItemKeys(keys: seq<string>): (r: seq<string>)
    ensures forall k :: 0 <= k < |r| ==> IsItemKey(r[k])
    ensures forall key :: key in r <==> key in keys && IsItemKey(key)
  {
    if keys == [] then []
    else
      var rest := ItemKeys(keys[1..]);
      assert forall key :: key in keys <==> key == keys[0] || key in keys[1..] by {
        assert keys == [keys[0]] + keys[1..];
      }
      if IsItemKey(keys[0]) then [keys[0]] + rest else rest
  }

  function IndicesOf(keys: seq<string>): (r: seq<string>)
    requires forall k :: 0 <= k < |keys| ==> IsItemKey(keys[k])
    ensures |r| == |keys|
    ensures forall k :: 0 <= k < |keys| ==> r[k] == IndexOf(keys[k])
  {
    if keys == [] then [] else [IndexOf(keys[0])] + IndicesOf(keys[1..])
  }

  /** `sorted(item_indices)`: each distinct index once, in string order. */
  function Indices(form: Form): (r: seq<string>)
    ensures StrictlySorted(r)
    ensures forall idx :: idx in r <==>
      exists key :: key in Keys(form) && IsItemKey(key) && IndexOf(key) == idx
  {
    var keys := ItemKeys(Keys(form));
    IndicesOfMembers(keys);
    SortedSet(IndicesOf(keys))
  }

  lemma IndicesOfMembers(keys: seq<string>)
    requires forall k :: 0 <= k < |keys| ==> IsItemKey(keys[k])
    ensures forall idx :: idx in IndicesOf(keys) <==> exists key :: key in keys && IndexOf(key) == idx
  {
    forall idx | exists key :: key in keys && IndexOf(key) == idx ensures idx in IndicesOf(keys) {
      var key :| key in keys && IndexOf(key) == idx;
      var k :| 0 <= k < |keys| && keys[k] == key;
      assert IndicesOf(keys)[k] == idx;
    }
  }

  // ---------------------------------------------------------------- int() and float()

  /** An optional sign followed by at least one decimal digit. */
  function ParseSignedDigits(t: string): Option<int> {
    if |t| > 0 && (t[0] == '-' || t[0] == '+') then
      if |t| > 1 && AllDigits(t[1..]) then
        var v: int := DigitsValue(t[1..]);
        Some(if t[0] == '-' then -v else v)
      else None
    else if |t| > 0 && AllDigits(t) then Some(DigitsValue(t))
    else None
  }

  /** Python's `int(s)` on text: surrounding whitespace, an optional sign, then decimal digits. */
  function ParseInt(s: string): (r: Option<int>)
    ensures var t := Strip(s);
      r.Some? <==> (t != [] && AllDigits(t)) || (|t| > 1 && (t[0] == '-' || t[0] == '+') && AllDigits(t[1..]))
    ensures var t := Strip(s); t != [] && AllDigits(t) ==> r == Some(DigitsValue(t))
    ensures var t := Strip(s); |t| > 1 && t[0] == '-' && AllDigits(t[1..]) ==> r == Some(-(DigitsValue(t[1..]) as int))
    ensures var t := Strip(s); |t| > 1 && t[0] == '+' && AllDigits(t[1..]) ==> r == Some(DigitsValue(t[1..]))
  {
    ParseSignedDigits(Strip(s))
  }

  function Pow10(n: nat): (r: nat)
    ensures r >= 1
  {
    if n == 0 then 1 else 10 * Pow10(n - 1)
  }

  /** The value of the numeral `w.f`. */
  function DecimalValue(w: string, f: string): real
    requires AllDigits(w) && AllDigits(f)
  {
    DigitsValue(w) as real + DigitsValue(f) as real / Pow10(|f|) as real
  }

  /** `digits` or `digits.digits`, with a digit on at least one side of the point. */
  function ParseUnsignedDecimal(t: string): Option<real> {
    var whole := BeforeFirst(t, '.');
    if |whole| == |t| then
      if |t| > 0 && AllDigits(t) then Some(DigitsValue(t) as real) else None
    else
      var frac := t[|whole| + 1..];
      if (|whole| > 0 || |frac| > 0) && AllDigits(whole) && AllDigits(frac) then
        Some(DecimalValue(whole, frac))
      else None
  }

  /** Text `ParseUnsignedDecimal` accepts is made of digits and a point. */
  lemma UnsignedDecimalShape(t: string)
    requires ParseUnsignedDecimal(t).Some?
    ensures t != [] && exists k :: 0 <= k < |t| && IsDigit(t[k])
    ensures forall k :: 0 <= k < |t| ==> IsDigit(t[k]) || t[k] == '.'
    ensures forall i, j :: 0 <= i < j < |t| ==> t[i] != '.' || t[j] != '.'
  {
    var whole := BeforeFirst(t, '.');
    if |whole| == |t| {
      assert t == whole;
    } else {
      var frac := t[|whole| + 1..];
      assert t[..|whole|] == whole;
      forall k | 0 <= k < |t| ensures IsDigit(t[k]) || t[k] == '.' {
        if k < |whole| {
          assert t[k] == whole[k];
        } else if k > |whole| {
          assert t[k] == frac[k - |whole| - 1];
        }
      }
      if |whole| > 0 {
        assert t[0] == whole[0];
      } else {
        assert t[|whole| + 1] == frac[0];
      }
      forall k | 0 <= k < |whole| ensures t[k] != '.' {
        assert t[k] == whole[k];
      }
      forall k | |whole| < k < |t| ensures t[k] != '.' {
        assert t[k] == frac[k - |whole| - 1];
      }
    }
  }

  /**
   * Python's `float(s)` on text in plain decimal notation, with an optional sign:
   * what it accepts is a sign, digits and a point, with at least one digit, and
   * a string of digits reads as its value.
   */
  function ParseFloat(s: string): (r: Option<real>)
    ensures var t := Strip(s); r.Some? ==>
      && (exists k :: 0 <= k < |t| && IsDigit(t[k]))
      && forall k :: 0 <= k < |t| ==> IsDigit(t[k]) || t[k] == '.' || (k == 0 && (t[k] == '-' || t[k] == '+'))
    ensures var t := Strip(s); r.Some? ==> forall i, j :: 0 <= i < j < |t| ==> t[i] != '.' || t[j] != '.'
    ensures var t := Strip(s); r.Some? && r.value < 0.0 ==> t[0] == '-'
    ensures var t := Strip(s); t != [] && AllDigits(t) ==> r == Some(DigitsValue(t) as real)
  {
    var t := Strip(s);
    SignedDecimalFacts(t);
    ParseSignedDecimal(t)
  }

  /** An optional sign followed by unsigned decimal text. */
  function ParseSignedDecimal(t: string): Option<real> {
    if |t| > 0 && (t[0] == '-' || t[0] == '+') then
      match ParseUnsignedDecimal(t[1..])
      case None => None
      case Some(v) => Some(if t[0] == '-' then -v else v)
    else ParseUnsignedDecimal(t)
  }

  lemma SignedDecimalFacts(t: string)
    ensures var r := ParseSignedDecimal(t); r.Some? ==>
      && (exists k :: 0 <= k < |t| && IsDigit(t[k]))
      && forall k :: 0 <= k < |t| ==> IsDigit(t[k]) || t[k] == '.' || (k == 0 && (t[k] == '-' || t[k] == '+'))
    ensures var r := ParseSignedDecimal(t); r.Some? ==> forall i, j :: 0 <= i < j < |t| ==> t[i] != '.' || t[j] != '.'
    ensures var r := ParseSignedDecimal(t); r.Some? && r.value < 0.0 ==> t[0] == '-'
    ensures t != [] && AllDigits(t) ==> ParseSignedDecimal(t) == Some(DigitsValue(t) as real)
  {
    if |t| > 0 && (t[0] == '-' || t[0] == '+') {
      if ParseUnsignedDecimal(t[1..]).Some? {
        SignedDecimalShape(t);
      }
    } else {
      UnsignedDecimalFacts(t);
    }
  }

  /** A sign followed by accepted unsigned text. */
  lemma SignedDecimalShape(t: string)
    requires |t| > 0 && (t[0] == '-' || t[0] == '+') && ParseUnsignedDecimal(t[1..]).Some?
    ensures exists k :: 0 <= k < |t| && IsDigit(t[k])
    ensures forall k :: 1 <= k < |t| ==> IsDigit(t[k]) || t[k] == '.'
    ensures forall i, j :: 0 <= i < j < |t| ==> t[i] != '.' || t[j] != '.'
    ensures ParseUnsignedDecimal(t[1..]).value >= 0.0
  {
    UnsignedDecimalShape(t[1..]);
    UnsignedDecimalNonNegative(t[1..]);
    var k :| 0 <= k < |t[1..]| && IsDigit(t[1..][k]);
    assert t[k + 1] == t[1..][k];
    forall k | 1 <= k < |t| ensures IsDigit(t[k]) || t[k] == '.' {
      assert t[k] == t[1..][k - 1];
    }
    forall i, j | 0 <= i < j < |t| ensures t[i] != '.' || t[j] != '.' {
      if i > 0 {
        assert t[i] == t[1..][i - 1] && t[j] == t[1..][j - 1];
      }
    }
  }

  /** Unsigned text: its accepted shape, a non-negative value, and the value of a plain digit string. */
  lemma UnsignedDecimalFacts(t: string)
    ensures ParseUnsignedDecimal(t).Some? ==> ParseUnsignedDecimal(t).value >= 0.0
    ensures ParseUnsignedDecimal(t).Some? ==> forall k :: 0 <= k < |t| ==> IsDigit(t[k]) || t[k] == '.'
    ensures ParseUnsignedDecimal(t).Some? ==> exists k :: 0 <= k < |t| && IsDigit(t[k])
    ensures ParseUnsignedDecimal(t).Some? ==> forall i, j :: 0 <= i < j < |t| ==> t[i] != '.' || t[j] != '.'
    ensures t != [] && AllDigits(t) ==> ParseUnsignedDecimal(t) == Some(DigitsValue(t) as real)
  {
    if ParseUnsignedDecimal(t).Some? {
      UnsignedDecimalShape(t);
      UnsignedDecimalNonNegative(t);
    }
    if t != [] && AllDigits(t) {
      assert '.' !in t by {
        forall k | 0 <= k < |t| ensures t[k] != '.' {
          assert IsDigit(t[k]);
        }
      }
      BeforeFirstOfNoSeparator(t, '.');
    }
  }

  /** The unsigned value read is never negative. */
  lemma UnsignedDecimalNonNegative(t: string)
    requires ParseUnsignedDecimal(t).Some?
    ensures ParseUnsignedDecimal(t).value >= 0.0
  {
  }

  /** The numeral `w.f` after no sign, `+` or `-`, with a digit on at least one side of the point. */
  lemma ParseFloatValue(s: string, sign: string, w: string, f: string)
    requires sign == "" || sign == "-" || sign == "+"
    requires AllDigits(w) && AllDigits(f) && |w| + |f| > 0
    requires Strip(s) == sign + w + "." + f
    ensures ParseFloat(s) == Some(if sign == "-" then -DecimalValue(w, f) else DecimalValue(w, f))
  {
    SignedDecimalValue(Strip(s), sign, w, f);
  }

  lemma SignedDecimalValue(t: string, sign: string, w: string, f: string)
    requires sign == "" || sign == "-" || sign == "+"
    requires AllDigits(w) && AllDigits(f) && |w| + |f| > 0
    requires t == sign + w + "." + f
    ensures ParseSignedDecimal(t) == Some(if sign == "-" then -DecimalValue(w, f) else DecimalValue(w, f))
  {
    UnsignedDecimalOf(w, f);
    if sign == "" {
      assert t == w + "." + f;
      assert |t| > 0 && t[0] != '-' && t[0] != '+' by {
        assert |w| > 0 ==> t[0] == w[0];
        assert |w| == 0 ==> t[0] == '.';
      }
    } else {
      assert t[0] == sign[0] && t[1..] == w + "." + f;
    }
  }

  /** `ParseUnsignedDecimal` reads `w.f` as its value. */
  lemma UnsignedDecimalOf(w: string, f: string)
    requires AllDigits(w) && AllDigits(f) && |w| + |f| > 0
    ensures ParseUnsignedDecimal(w + "." + f) == Some(DecimalValue(w, f))
  {
    var t := w + "." + f;
    assert '.' !in w by {
      forall k | 0 <= k < |w| ensures w[k] != '.' {
        assert IsDigit(w[k]);
      }
    }
    BeforeFirstAppend(w, f, '.');
    assert t[|w| + 1..] == f;
  }

  /** A whole numeral after no sign, `+` or `-`. */
  lemma ParseFloatInteger(s: string, sign: string, w: string)
    requires sign == "" || sign == "-" || sign == "+"
    requires AllDigits(w) && |w| > 0
    requires Strip(s) == sign + w
    ensures ParseFloat(s) == Some(if sign == "-" then -(DigitsValue(w) as real) else DigitsValue(w) as real)
  {
    SignedIntegerValue(Strip(s), sign, w);
  }

  lemma SignedIntegerValue(t: string, sign: string, w: string)
    requires sign == "" || sign == "-" || sign == "+"
    requires AllDigits(w) && |w| > 0
    requires t == sign + w
    ensures ParseSignedDecimal(t) == Some(if sign == "-" then -(DigitsValue(w) as real) else DigitsValue(w) as real)
  {
    UnsignedDecimalFacts(w);
    if sign == "" {
      assert t == w && t[0] == w[0];
    } else {
      assert t[0] == sign[0] && t[1..] == w;
    }
  }

  /** `int(str(n)) == n`. */
  lemma ParseIntDecimal(n: nat)
    ensures ParseInt(Decimal(n)) == Some(n)
  {
    IntOfDigits(Decimal(n));
  }

  lemma IntOfDigits(d: string)
    requires |d| > 0 && AllDigits(d)
    ensures ParseInt(d) == Some(DigitsValue(d))
  {
    DigitNotSpace(d[0]);
    DigitNotSpace(d[|d| - 1]);
    StripOfNoSpace(d);
    assert d[0] != '-' && d[0] != '+';
  }

  /** `int(str(-n)) == -n`. */
  lemma ParseIntNegativeDecimal(n: nat)
    ensures ParseInt("-" + Decimal(n)) == Some(-(n as int))
  {
    NegativeParse(Decimal(n));
  }

  lemma NegativeParse(d: string)
    requires |d| > 0 && AllDigits(d)
    ensures ParseInt("-" + d) == Some(-(DigitsValue(d) as int))
  {
    var m := "-" + d;
    assert m[0] == '-' && m[|m| - 1] == d[|d| - 1];
    DigitNotSpace(d[|d| - 1]);
    StripOfNoSpace(m);
    NegativeDigits(d);
  }

  lemma NegativeDigits(d: string)
    requires |d| > 0 && AllDigits(d)
    ensures ParseSignedDigits("-" + d) == Some(-(DigitsValue(d) as int))
  {
    assert ("-" + d)[1..] == d;
  }

  /** `float(str(n)) == n`. */
  lemma ParseFloatDecimal(n: nat)
    ensures ParseFloat(Decimal(n)) == Some(n as real)
  {
    FloatOfDigits(Decimal(n));
  }

  lemma FloatOfDigits(d: string)
    requires |d| > 0 && AllDigits(d)
    ensures ParseFloat(d) == Some(DigitsValue(d) as real)
  {
    DigitNotSpace(d[0]);
    DigitNotSpace(d[|d| - 1]);
    StripOfNoSpace(d);
    assert '.' !in d;
    BeforeFirstOfNoSeparator(d, '.');
  }

  lemma DigitNotSpace(c: char)
    requires IsDigit(c)
    ensures !IsSpace(c)
  {
  }

  /** Text with no whitespace at either end is left alone by `strip()`. */
  lemma StripOfNoSpace(s: string)
    requires s != [] && !IsSpace(s[0]) && !IsSpace(s[|s| - 1])
    ensures Strip(s) == s
  {
  }

  /** Blank or absent numbers are rejected rather than read as zero. */
  lemma ParseRejectsBlank()
    ensures ParseInt("") == None && ParseInt(" ") == None
    ensures ParseFloat("") == None && ParseFloat(".") == None
  {
    assert IsSpace(' ');
    assert Strip(" ") == [];
    assert Strip(".") == "." by {
      StripOfNoSpace(".");
    }
    assert BeforeFirst(".", '.') == [];
  }

  lemma ParseFloatExample()
    ensures ParseFloat("12.50") == Some(12.5)
  {
    var t := "12.50";
    assert IsDigit(t[0]) && IsDigit(t[|t| - 1]);
    ParseFloatOfDigitEnds(t);
    UnsignedDecimalExample();
  }

  /** Text that starts and ends with a digit is read without a sign and without stripping. */
  lemma ParseFloatOfDigitEnds(t: string)
    requires t != [] && IsDigit(t[0]) && IsDigit(t[|t| - 1])
    ensures ParseFloat(t) == ParseUnsignedDecimal(t)
  {
    DigitNotSpace(t[0]);
    DigitNotSpace(t[|t| - 1]);
    StripOfNoSpace(t);
  }

  lemma UnsignedDecimalExample()
    ensures ParseUnsignedDecimal("12.50") == Some(12.5)
  {
    var t := "12.50";
    assert t == "12" + ['.'] + "50";
    BeforeFirstAppend("12", "50", '.');
    assert t[3..] == "50";
    DigitsExample();
  }

  lemma DigitsExample()
    ensures DigitsValue("12") == 12 && DigitsValue("50") == 50 && Pow10(2) == 100
  {
    assert "12"[..1] == "1" && "50"[..1] == "5";
  }

  // ---------------------------------------------------------------- entries

  /** The raw service name posted for an entry, stripped; blank when absent. */
  function NameAt(form: Form, index: string): string {
    Strip(Get(form, FieldKey(index, "service_name")).GetOr(""))
  }

  /**
   * One entry: nothing when its stripped name is blank; otherwise the stripped
   * name and description, `int(quantity)` (1 when absent) and `float(rate)` (0
   * when absent). A value `int()` or `float()` rejects aborts the request.
   */
  function BuildItem(form: Form, index: string): (r: Result<Option<LineItem>, Error>)
    ensures r.Ok? && r.value.None? <==> NameAt(form, index) == ""
    ensures r.Err? ==> r.error == BadNumber && NameAt(form, index) != ""
    ensures var q, p := Get(form, FieldKey(index, "quantity")), Get(form, FieldKey(index, "rate"));
      r.Err? <==> NameAt(form, index) != "" && ((q.Some? && ParseInt(q.value).None?) || (p.Some? && ParseFloat(p.value).None?))
    ensures var q := Get(form, FieldKey(index, "quantity"));
      r.Ok? && r.value.Some? && q.Some? ==> ParseInt(q.value) == Some(r.value.value.quantity)
    ensures var p := Get(form, FieldKey(index, "rate"));
      r.Ok? && r.value.Some? && p.Some? ==> ParseFloat(p.value) == Some(r.value.value.rate)
    ensures r.Ok? && r.value.Some? ==>
      && r.value.value.serviceName == NameAt(form, index)
      && r.value.value.serviceDescription == Strip(Get(form, FieldKey(index, "service_description")).GetOr(""))
      && (Get(form, FieldKey(index, "quantity")).None? ==> r.value.value.quantity == 1)
      && (Get(form, FieldKey(index, "rate")).None? ==> r.value.value.rate == 0.0)
  {
    var name := NameAt(form, index);
    if name == "" then Ok(None)
    else
      var description := Strip(Get(form, FieldKey(index, "service_description")).GetOr(""));
      var quantity := match Get(form, FieldKey(index, "quantity"))
        case None => Some(1)
        case Some(s) => ParseInt(s);
      var rate := match Get(form, FieldKey(index, "rate"))
        case None => Some(0.0)
        case Some(s) => ParseFloat(s);
      if quantity.None? || rate.None? then Err(BadNumber)
      else Ok(Some(LineItem(name, description, quantity.value, rate.value)))
  }

  /** The elements of `xs` that satisfy `p`, in order. */
  function Where<A>(p: A -> bool, xs: seq<A>): (r: seq<A>)
    ensures |r| <= |xs|
    ensures forall k :: 0 <= k < |r| ==> r[k] in xs && p(r[k])
    ensures forall x :: x in xs && p(x) ==> x in r
  {
    if xs == [] then []
    else
      var rest := Where(p, xs[1..]);
      assert forall x :: x in xs ==> x == xs[0] || x in xs[1..];
      if p(xs[0]) then [xs[0]] + rest else rest
  }

  /**
   * The loop `for index in indices: entry = f(index); if entry: items.append(entry)`,
   * stopping at the first failure.
   */
  function Collect<A, B>(f: A -> Result<Option<B>, Error>, xs: seq<A>): (r: Result<seq<B>, Error>)
    ensures r.Err? ==> exists k :: 0 <= k < |xs| && f(xs[k]) == Err(r.error)
    ensures r.Ok? ==> |r.value| <= |xs| && forall k :: 0 <= k < |xs| ==> f(xs[k]).Ok?
  {
    if xs == [] then Ok([])
    else
      match f(xs[0])
      case Err(e) => Err(e)
      case Ok(entry) =>
        var rest := Collect(f, xs[1..]);
        assert rest.Err? ==> exists k :: 1 <= k < |xs| && f(xs[k]) == Err(rest.error) by {
          if rest.Err? {
            var k :| 0 <= k < |xs[1..]| && f(xs[1..][k]) == Err(rest.error);
            assert xs[1..][k] == xs[k + 1];
          }
        }
        assert rest.Ok? ==> forall k :: 1 <= k < |xs| ==> f(xs[k]).Ok? by {
          if rest.Ok? {
            forall k | 1 <= k < |xs| ensures f(xs[k]).Ok? {
              assert xs[1..][k - 1] == xs[k];
            }
          }
        }
        match rest
        case Err(e) => Err(e)
        case Ok(items) => Ok(if entry.Some? then [entry.value] + items else items)
  }

  /** A relation that holds pointwise between two sequences still does after one more pair in front. */
  lemma ConsPairs<A, B>(p: (A, B) -> bool, a: A, b: B, xs: seq<A>, ys: seq<B>)
    requires p(a, b) && |xs| == |ys|
    requires forall k :: 0 <= k < |xs| ==> p(xs[k], ys[k])
    ensures forall k :: 0 <= k < |xs| + 1 ==> p(([a] + xs)[k], ([b] + ys)[k])
  {
    forall k | 0 <= k < |xs| + 1 ensures p(([a] + xs)[k], ([b] + ys)[k]) {
      if k > 0 {
        assert ([a] + xs)[k] == xs[k - 1] && ([b] + ys)[k] == ys[k - 1];
      }
    }
  }

  /**
   * When `f` gives an entry exactly where `p` holds, the collected entries are
   * those of the elements satisfying `p`, in order, each produced by its own element.
   */
  lemma {:induction false} CollectMatchesWhere<A, B>(f: A -> Result<Option<B>, Error>, p: A -> bool, xs: seq<A>)
    requires Collect(f, xs).Ok?
    requires forall x :: f(x).Ok? ==> (f(x).value.Some? <==> p(x))
    ensures var items := Collect(f, xs).value;
      var kept := Where(p, xs);
      && |items| == |kept|
      && forall k :: 0 <= k < |kept| ==> f(kept[k]) == Ok(Some(items[k]))
  {
    if xs != [] {
      var restItems := Collect(f, xs[1..]).value;
      var restKept := Where(p, xs[1..]);
      CollectMatchesWhere(f, p, xs[1..]);
      if p(xs[0]) {
        var produces := (x: A, y: B) => f(x) == Ok(Some(y));
        assert forall k :: 0 <= k < |restKept| ==> produces(restKept[k], restItems[k]);
        ConsPairs(produces, xs[0], f(xs[0]).value.value, restKept, restItems);
      }
    }
  }

  /** The entry builder for one form, as a function of the index. */
  function Builder(form: Form): string -> Result<Option<LineItem>, Error> {
    (index: string) => BuildItem(form, index)
  }

  /** The indices whose entry has a non-blank service name. */
  function Named(form: Form): string -> bool {
    (index: string) => NameAt(form, index) != ""
  }

  /** The indices whose entry has a non-blank service name, in visiting order. */
  function NamedIndices(form: Form, indices: seq<string>): seq<string> {
    Where(Named(form), indices)
  }

  /** The loop over the indices: the entries kept, in order, or the first conversion failure. */
  function BuildItems(form: Form, indices: seq<string>): (r: Result<seq<LineItem>, Error>)
    ensures r.Err? ==> r.error == BadNumber
    ensures r.Ok? ==> |r.value| <= |indices|
  {
    Collect(Builder(form), indices)
  }

  /**
   * The kept entries are exactly those of the named indices, in visiting order,
   * each built from its own fields.
   */
  lemma BuildItemsMatchesNamed(form: Form, indices: seq<string>)
    requires BuildItems(form, indices).Ok?
    ensures var items := BuildItems(form, indices).value;
      var named := NamedIndices(form, indices);
      && |items| == |named|
      && forall k :: 0 <= k < |named| ==> BuildItem(form, named[k]) == Ok(Some(items[k]))
  {
    CollectMatchesWhere(Builder(form), Named(form), indices);
  }

  /** Every kept entry has a non-blank name without surrounding whitespace. */
  lemma BuiltItemsAreNamed(form: Form, indices: seq<string>)
    requires BuildItems(form, indices).Ok?
    ensures forall li :: li in BuildItems(form, indices).value ==>
      li.serviceName != "" && NoSpaceAtEnds(li.serviceName) && NoSpaceAtEnds(li.serviceDescription)
  {
    var items := BuildItems(form, indices).value;
    var named := NamedIndices(form, indices);
    BuildItemsMatchesNamed(form, indices);
    forall li | li in items
      ensures li.serviceName != "" && NoSpaceAtEnds(li.serviceName) && NoSpaceAtEnds(li.serviceDescription)
    {
      var k :| 0 <= k < |items| && items[k] == li;
      assert BuildItem(form, named[k]) == Ok(Some(li));
    }
  }

  /** What the create and edit routes build from the posted form. */
  function ParseLineItems(form: Form): Result<seq<LineItem>, Error> {
    BuildItems(form, Indices(form))
  }

  /** A form whose every entry has a blank name produces no items (and the route then refuses it). */
  lemma BlankNamesGiveNoItems(form: Form)
    requires forall idx :: idx in Indices(form) ==> NameAt(form, idx) == ""
    ensures ParseLineItems(form) == Ok([])
  {
    AllBlankBuildsNothing(form, Indices(form));
  }

  lemma AllBlankBuildsNothing(form: Form, indices: seq<string>)
    requires forall idx :: idx in indices ==> NameAt(form, idx) == ""
    ensures BuildItems(form, indices) == Ok([])
  {
    CollectNothing(Builder(form), indices);
  }

  /** A loop whose every entry is absent collects nothing. */
  lemma {:induction false} CollectNothing<A, B>(f: A -> Result<Option<B>, Error>, xs: seq<A>)
    requires forall x :: x in xs ==> f(x) == Ok(None)
    ensures Collect(f, xs) == Ok([])
  {
    if xs != [] {
      assert xs[0] in xs;
      CollectNothing(f, xs[1..]);
    }
  }
}
