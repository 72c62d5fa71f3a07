/**
 * Human-readable document numbers: a prefix followed by a sequence number
 * rendered with Python's `{:04d}` (at least four digits, zero-padded).
 */
module Numbering {
  import opened Wrappers
  import opened Text

  const INVOICE_PREFIX := "INV-"
  const RECEIPT_PREFIX := "REC-"

  /** The minimum number of digits after the prefix. */
  const WIDTH: nat := 4

  /** `f"{prefix}{n:04d}"`. */
  function FormatNumber(prefix: string, n: nat): (r: string)
    ensures StartsWith(r, prefix)
    ensures AllDigits(r[|prefix|..])
    ensures |r| - |prefix| == if |Decimal(n)| < WIDTH then WIDTH else |Decimal(n)|
  {
    var digits := ZeroPad(Decimal(n), WIDTH);
    LeadingZerosValue(|digits| - |Decimal(n)|, Decimal(n));
    assert (prefix + digits)[|prefix|..] == digits;
    prefix + digits
  }

  /** Reads back the sequence number of a string shaped `prefix` + digits. */
  function ParseNumber(prefix: string, s: string): (r: Option<nat>)
    ensures r.Some? ==> StartsWith(s, prefix) && |s| > |prefix|
  {
    if StartsWith(s, prefix) && |s| > |prefix| && AllDigits(s[|prefix|..]) then
      Some(DigitsValue(s[|prefix|..]))
    else
      None
  }

  /** Parsing recovers the number a formatted string was made from. */
  lemma FormatThenParse(prefix: string, n: nat)
    ensures ParseNumber(prefix, FormatNumber(prefix, n)) == Some(n)
  {
    var d := Decimal(n);
    var digits := ZeroPad(d, WIDTH);
    assert FormatNumber(prefix, n)[|prefix|..] == digits;
    LeadingZerosValue(|digits| - |d|, d);
  }

  /** Distinct sequence numbers give distinct document numbers. */
  lemma FormatInjective(prefix: string, a: nat, b: nat)
    requires FormatNumber(prefix, a) == FormatNumber(prefix, b)
    ensures a == b
  {
    FormatThenParse(prefix, a);
    FormatThenParse(prefix, b);
  }

  lemma FormatExampleSeven()
    ensures FormatNumber(INVOICE_PREFIX, 7) == "INV-0007"
  {
    assert Decimal(7) == "7";
    assert Zeros(3) == "000";
  }

  lemma FormatExampleTwelve()
    ensures FormatNumber(RECEIPT_PREFIX, 12) == "REC-0012"
  {
    assert Decimal(1) == "1";
    assert Decimal(12) == "12";
    assert Zeros(2) == "00";
  }

  /** Past 9999 the number simply grows a fifth digit. */
  lemma FormatExampleWide()
    ensures FormatNumber(INVOICE_PREFIX, 12345) == "INV-12345"
  {
    assert Decimal(1) == "1";
    assert Decimal(12) == "12";
    assert Decimal(123) == "123";
    assert Decimal(1234) == "1234";
    assert Decimal(12345) == "12345";
    assert Zeros(0) == "";
  }
}
