/**
 `strconv.ParseInt(s, 10, 32)` of the Go standard library: an optional sign
 followed by one or more decimal digits, whose value must fit in a signed
 32-bit integer. Anything else is an error (`None` here). Leading zeros and a
 leading `+` are accepted; underscores and base prefixes are not (they are
 allowed only with base 0).
 */
module Decimal {
  import opened Wrappers
  import opened Text

  const MinInt32: int := -0x8000_0000
  const MaxInt32: int := 0x7fff_ffff

  predicate AllDigits(s: string)
  {
    forall k :: 0 <= k < |s| ==> IsDigit(s[k])
  }

  function DigitValue(c: char): nat
    requires IsDigit(c)
  {
    (c as int - '0' as int) as nat
  }

  function DigitChar(d: nat): char
    requires d < 10
  {
    (d + '0' as int) as char
  }

  /** The value of a string of decimal digits, most significant first. */
  function ValueOf(ds: string): nat
    requires AllDigits(ds)
  {
    if ds == [] then 0 else 10 * ValueOf(ds[..|ds| - 1]) + DigitValue(ds[|ds| - 1])
  }

  /** The digits of `s` once an optional leading sign is removed. */
  function Unsigned(s: string): string
  {
    if s != [] && (s[0] == '+' || s[0] == '-') then s[1..] else s
  }

  /** The value of an optionally signed decimal text, without range limits. */
  function Signed(s: string): int
    requires Unsigned(s) != [] && AllDigits(Unsigned(s))
  {
    if s[0] == '-' then -(ValueOf(Unsigned(s)) as int) else ValueOf(Unsigned(s))
  }

  /**
   `strconv.ParseInt(s, 10, 32)`; `None` for a syntax or range error. A text is
   accepted exactly when it is an optional sign, one or more digits, and a value
   in the signed 32-bit range.
   */
  function ParseInt32(s: string): (r: Option<int>)
    ensures r.Some? ==> MinInt32 <= r.value <= MaxInt32
    ensures r.Some? ==> |s| > 0 && Unsigned(s) != [] && AllDigits(Unsigned(s))
    ensures r.Some? ==> r.value == Signed(s)
    ensures |s| > 0 && Unsigned(s) != [] && AllDigits(Unsigned(s)) && MinInt32 <= Signed(s) <= MaxInt32 ==>
              r == Some(Signed(s))
  {
    var ds := Unsigned(s);
    if ds == [] || !AllDigits(ds) then None
    else
      var magnitude: int := ValueOf(ds);
      if s[0] == '-' then
        (if magnitude > -MinInt32 then None else Some(-magnitude))
      else
        (if magnitude > MaxInt32 then None else Some(magnitude))
  }

  /** The shortest decimal digits of `n`. */
  function DigitsOf(n: nat): (ds: string)
    ensures ds != [] && AllDigits(ds)
  {
    if n < 10 then [DigitChar(n)] else DigitsOf(n / 10) + [DigitChar(n % 10)]
  }

  /** Decimal text of `n`, as Go's `strconv.Itoa` writes it. */
  function FormatInt(n: int): string
  {
    if n < 0 then "-" + DigitsOf(-n) else DigitsOf(n)
  }

  lemma {:induction false} ValueOfDigitsOf(n: nat)
    ensures ValueOf(DigitsOf(n)) == n
  {
    var ds := DigitsOf(n);
    if n >= 10 {
      ValueOfDigitsOf(n / 10);
      assert ds[..|ds| - 1] == DigitsOf(n / 10);
    }
  }

  /** Every decimal text of an integer parses back to it exactly when it fits in 32 bits. */
  lemma ParseFormat(n: int)
    ensures ParseInt32(FormatInt(n)) == if MinInt32 <= n <= MaxInt32 then Some(n) else None
  {
    var s := FormatInt(n);
    if n < 0 {
      ValueOfDigitsOf(-n);
      assert Unsigned(s) == DigitsOf(-n);
    } else {
      ValueOfDigitsOf(n);
      assert DigitsOf(n)[0] != '-' && DigitsOf(n)[0] != '+';
      assert Unsigned(s) == DigitsOf(n);
    }
  }

  /** A leading `+` and leading zeros are accepted, as Go accepts them. */
  lemma PlusAndZerosAccepted()
    ensures ParseInt32("+7") == Some(7) && ParseInt32("007") == Some(7)
  {
    assert Unsigned("+7") == "7";
    assert ValueOf("7") == 7 by { assert "7"[..0] == ""; }
    assert Unsigned("007") == "007";
    assert ValueOf("007") == 7 by {
      assert "007"[..2] == "00" && "00"[..1] == "0" && "0"[..0] == "";
    }
  }

  /** Decimal text consists of digits and a minus sign only. */
  lemma FormatIntChars(n: int)
    ensures forall k :: 0 <= k < |FormatInt(n)| ==> FormatInt(n)[k] == '-' || IsDigit(FormatInt(n)[k])
  {
  }

}
