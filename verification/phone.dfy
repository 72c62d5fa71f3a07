/**
 * The telephone-input formatter of static/js/main.js: on every keystroke the
 * field's value is reduced to its digits and, when there are enough of them,
 * rewritten as `(ddd) ddd-dddd`.
 */
module Phone {
  import opened Text

  /** `value.replace(/\D/g, '')`: the ASCII digits of `s`, in order. */
  function Digits(s: string): (r: string)
    ensures AllDigits(r) && |r| <= |s|
    ensures AllDigits(s) ==> r == s
    ensures forall c :: IsDigit(c) ==> multiset(r)[c] == multiset(s)[c]
  {
    if s == [] then []
    else
      assert s == [s[0]] + s[1..];
      if IsDigit(s[0]) then [s[0]] + Digits(s[1..])
      else Digits(s[1..])
  }

  lemma {:induction false} DigitsAppend(a: string, b: string)
    ensures Digits(a + b) == Digits(a) + Digits(b)
    decreases |a|
  {
    if a == [] {
      assert a + b == b;
    } else {
      assert (a + b)[0] == a[0];
      assert (a + b)[1..] == a[1..] + b;
      DigitsAppend(a[1..], b);
    }
  }

  /** The full pattern `(\d{3})(\d{3})(\d{4})` → `($1) $2-$3`, applied to a digit string at its first match. */
  function ReplaceTen(d: string): string
    requires AllDigits(d)
  {
    if |d| >= 10 then "(" + d[..3] + ") " + d[3..6] + "-" + d[6..10] + d[10..] else d
  }

  /** The short pattern `(\d{3})(\d{3})` → `($1) $2`, applied to a digit string at its first match. */
  function ReplaceSix(d: string): string
    requires AllDigits(d)
  {
    if |d| >= 6 then "(" + d[..3] + ") " + d[3..6] + d[6..] else d
  }

  /** The area code in parentheses, the exchange, a dash, then every remaining digit. */
  function Framed(d: string): string
    requires |d| >= 6
  {
    "(" + d[..3] + ") " + d[3..6] + "-" + d[6..]
  }

  /**
   * The input handler: the full pattern for six or more digits, the short one
   * for three to five. The short pattern needs six digits, so it never fires.
   */
  function FormatPhone(input: string): (r: string)
    ensures Digits(r) == Digits(input)
    ensures |Digits(input)| < 10 ==> r == Digits(input)
    ensures |Digits(input)| >= 10 ==> r == Framed(Digits(input))
  {
    var d := Digits(input);
    var r := if |d| >= 6 then ReplaceTen(d) else if |d| >= 3 then ReplaceSix(d) else d;
    FramedDigits(d);
    r
  }

  /** Framing keeps the digits, and the full pattern frames a digit string of ten or more. */
  lemma FramedDigits(d: string)
    requires AllDigits(d)
    ensures |d| >= 10 ==> ReplaceTen(d) == Framed(d)
    ensures |d| >= 6 ==> Digits(Framed(d)) == d
  {
    if |d| >= 6 {
      FramedKeepsDigits(d);
      if |d| >= 10 {
        TenIsFramed(d);
      }
    }
  }

  lemma TenIsFramed(d: string)
    requires AllDigits(d) && |d| >= 10
    ensures ReplaceTen(d) == Framed(d)
  {
    var x := "(" + d[..3] + ") " + d[3..6] + "-";
    assert (x + d[6..10]) + d[10..] == x + (d[6..10] + d[10..]);
    assert d[6..10] + d[10..] == d[6..];
  }

  lemma PunctuationHasNoDigits()
    ensures Digits("(") == [] && Digits(") ") == [] && Digits("-") == []
  {
    assert !IsDigit('(') && !IsDigit(')') && !IsDigit(' ') && !IsDigit('-');
  }

  /** Appending text without digits keeps the digits; appending digits adds them. */
  lemma DigitsSnoc(x: string, y: string)
    requires AllDigits(y) || Digits(y) == []
    ensures AllDigits(y) ==> Digits(x + y) == Digits(x) + y
    ensures Digits(y) == [] ==> Digits(x + y) == Digits(x)
  {
    DigitsAppend(x, y);
  }

  lemma FramedKeepsDigits(d: string)
    requires AllDigits(d) && |d| >= 6
    ensures Digits(Framed(d)) == d
  {
    FramedPieces(d[..3], d[3..6], d[6..]);
    SplitThree(d);
  }

  lemma SplitThree(d: string)
    requires |d| >= 6
    ensures d[..3] + d[3..6] + d[6..] == d
  {
  }

  lemma FramedPieces(a: string, b: string, c: string)
    requires AllDigits(a) && AllDigits(b) && AllDigits(c)
    ensures Digits("(" + a + ") " + b + "-" + c) == a + b + c
  {
    var l1 := "(" + a;
    var l2 := l1 + ") ";
    var l3 := l2 + b;
    var l4 := l3 + "-";
    PunctuationHasNoDigits();
    DigitsSnoc("(", a);
    DigitsSnoc(l1, ") ");
    DigitsSnoc(l2, b);
    DigitsSnoc(l3, "-");
    DigitsSnoc(l4, c);
  }

  /** Formatting what is already formatted changes nothing, so the handler can run on every keystroke. */
  lemma FormatPhoneIdempotent(input: string)
    ensures FormatPhone(FormatPhone(input)) == FormatPhone(input)
  {
  }
}
