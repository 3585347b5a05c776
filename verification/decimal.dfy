/**
  Integers as decimal text: JavaScript's `Number.prototype.toString()` for integers, and
  `parseInt(s)` (no radix) as the webhook uses it to read the correlation metadata back.
 */
module Decimal {
  import opened Wrappers

  predicate IsDigit(c: char) {
    '0' <= c <= '9'
  }

  predicate AllDigits(s: string) {
    forall i :: 0 <= i < |s| ==> IsDigit(s[i])
  }

  function DigitValue(c: char): (d: nat)
    requires IsDigit(c)
    ensures d < 10
  {
    c as int - '0' as int
  }

  function DigitChar(d: nat): (c: char)
    requires d < 10
    ensures IsDigit(c) && DigitValue(c) == d
  {
    ('0' as int + d) as char
  }

  /** Decimal rendering of a natural number: digits only, most significant first, no leading zero. */
  function NatToString(n: nat): (s: string)
    ensures |s| > 0 && AllDigits(s)
    ensures s[0] == '0' <==> n == 0
    decreases n
  {
    if n < 10 then [DigitChar(n)] else NatToString(n / 10) + [DigitChar(n % 10)]
  }

  /**
    `i.toString()` for an integer `i` of magnitude below 2^53, which covers every value of an
    `integer` column; JavaScript writes larger magnitudes inexactly or in exponent form.
   */
  function IntToString(i: int): (s: string)
    ensures |s| > 0
    ensures s[0] == '-' <==> i < 0
  {
    if i < 0 then "-" + NatToString(-i) else NatToString(i)
  }

  /** The number a string of digits denotes, most significant digit first. */
  function DigitsValue(s: string): nat
    requires AllDigits(s)
  {
    if |s| == 0 then 0 else DigitsValue(s[..|s| - 1]) * 10 + DigitValue(s[|s| - 1])
  }

  /** Length of the run of decimal digits at the start of `s`. */
  function LeadingDigits(s: string): (k: nat)
    ensures k <= |s|
    ensures AllDigits(s[..k])
    ensures k < |s| ==> !IsDigit(s[k])
  {
    if |s| == 0 || !IsDigit(s[0]) then 0
    else
      var k := 1 + LeadingDigits(s[1..]);
      assert s[..k] == [s[0]] + s[1..][..k - 1];
      k
  }

  /** Length of an optional leading sign. */
  function SignLength(s: string): (k: nat)
    ensures k <= |s|
  {
    if |s| > 0 && (s[0] == '-' || s[0] == '+') then 1 else 0
  }

  /**
    `parseInt(s)`: an optional sign, then the longest run of decimal digits; whatever follows
    is ignored. `None` stands for `NaN`, returned when no digit follows the sign.
   */
  function ParseInt(s: string): (r: Option<int>)
    ensures r.Some? <==> SignLength(s) < |s| && IsDigit(s[SignLength(s)])
    ensures r.Some? && r.value < 0 ==> s[0] == '-'
    ensures r.Some? && |s| > 0 && s[0] != '-' ==> r.value >= 0
  {
    var body := s[SignLength(s)..];
    var n := LeadingDigits(body);
    if n == 0 then None
    else
      var v: int := DigitsValue(body[..n]);
      if SignLength(s) == 1 && s[0] == '-' then Some(-v) else Some(v)
  }

  lemma {:induction false} DigitsValueOfNatToString(n: nat)
    ensures DigitsValue(NatToString(n)) == n
    decreases n
  {
    var s := NatToString(n);
    if n < 10 {
      assert s[..|s| - 1] == [];
    } else {
      DigitsValueOfNatToString(n / 10);
      assert s[..|s| - 1] == NatToString(n / 10);
    }
  }

  lemma {:induction false} LeadingDigitsOfDigitsThen(d: string, tail: string)
    requires AllDigits(d)
    requires tail == [] || !IsDigit(tail[0])
    ensures LeadingDigits(d + tail) == |d|
    decreases |d|
  {
    if |d| > 0 {
      assert (d + tail)[1..] == d[1..] + tail;
      LeadingDigitsOfDigitsThen(d[1..], tail);
    }
  }

  /**
    Reading back what `toString` wrote gives the same integer, even when other text follows
    the number, as long as that text does not start with a digit.
   */
  lemma {:induction false} ParseIntOfIntToStringThen(i: int, tail: string)
    requires tail == [] || !IsDigit(tail[0])
    ensures ParseInt(IntToString(i) + tail) == Some(i)
  {
    var m: nat := if i < 0 then -i else i;
    var d := NatToString(m);
    var s := IntToString(i) + tail;
    LeadingDigitsOfDigitsThen(d, tail);
    DigitsValueOfNatToString(m);
    if i < 0 {
      assert s == "-" + (d + tail);
      assert s[SignLength(s)..] == d + tail;
    } else {
      assert SignLength(s) == 0;
      assert s[SignLength(s)..] == d + tail;
    }
    assert (d + tail)[..|d|] == d;
  }

  /** Reading back the decimal text of an integer gives that integer. */
  lemma ParseIntOfIntToString(i: int)
    ensures ParseInt(IntToString(i)) == Some(i)
  {
    ParseIntOfIntToStringThen(i, []);
    assert IntToString(i) + [] == IntToString(i);
  }
}
