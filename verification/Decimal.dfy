/** Decimal printing and parsing of integers, as `strconv` does it for 64-bit values. */
module Decimal {
  import opened Bytes

  const MIN_INT64: int := -0x8000_0000_0000_0000
  const MAX_INT64: int := 0x7FFF_FFFF_FFFF_FFFF

  predicate IsInt64(n: int) {
    MIN_INT64 <= n <= MAX_INT64
  }

  type digit = d: int | 0 <= d < 10

  /** The decimal digits of `n`, most significant first. */
  function Digits(n: nat): (ds: seq<digit>)
    ensures |ds| >= 1
    ensures n > 0 ==> ds[0] != 0
    ensures n == 0 ==> ds == [0]
  {
    if n < 10 then [n] else Digits(n / 10) + [n % 10]
  }

  /** The number a digit string denotes. */
  function Value(ds: seq<digit>): nat {
    if ds == [] then 0 else Value(ds[..|ds| - 1]) * 10 + ds[|ds| - 1]
  }

  lemma {:induction false} ValueOfDigits(n: nat)
    ensures Value(Digits(n)) == n
  {
    if n >= 10 {
      ValueOfDigits(n / 10);
      assert Digits(n)[..|Digits(n)| - 1] == Digits(n / 10);
    }
  }

  predicate IsDigit(c: char) {
    '0' <= c <= '9'
  }

  function DigitOf(c: char): digit
    requires IsDigit(c)
  {
    c as int - '0' as int
  }

  function DigitChar(d: digit): (c: char)
    ensures IsDigit(c) && DigitOf(c) == d
  {
    (d + '0' as int) as char
  }

  predicate AllDigits(s: string) {
    forall i | 0 <= i < |s| :: IsDigit(s[i])
  }

  function Chars(ds: seq<digit>): (s: string)
    ensures |s| == |ds| && forall i | 0 <= i < |ds| :: s[i] == DigitChar(ds[i])
  {
    seq(|ds|, i requires 0 <= i < |ds| => DigitChar(ds[i]))
  }

  function DigitsOf(s: string): (ds: seq<digit>)
    requires AllDigits(s)
    ensures |ds| == |s| && forall i | 0 <= i < |s| :: ds[i] == DigitOf(s[i])
  {
    seq(|s|, i requires 0 <= i < |s| => DigitOf(s[i]))
  }

  lemma DigitsOfChars(ds: seq<digit>)
    ensures AllDigits(Chars(ds)) && DigitsOf(Chars(ds)) == ds
  {
  }

  function FormatNat(n: nat): (s: string)
    ensures |s| >= 1 && AllDigits(s)
  {
    DigitsOfChars(Digits(n));
    Chars(Digits(n))
  }

  function FormatInt(n: int): (s: string)
    ensures s != []
  {
    if n < 0 then "-" + FormatNat(-n) else FormatNat(n)
  }

  /** Only digits, and at least one. */
  function ParseNat(s: string): Option<nat> {
    if s == "" || !AllDigits(s) then None else Some(Value(DigitsOf(s)))
  }

  /** An optional sign, then a number in the 64-bit range. */
  function ParseInt(s: string): Option<int> {
    if s == "" then None
    else
      var magnitude := ParseNat(if s[0] == '-' || s[0] == '+' then s[1..] else s);
      if magnitude.None? then None
      else
        var n := if s[0] == '-' then 0 - magnitude.value else magnitude.value;
        if IsInt64(n) then Some(n) else None
  }

  lemma ParseFormatNat(n: nat)
    ensures ParseNat(FormatNat(n)) == Some(n)
  {
    DigitsOfChars(Digits(n));
    ValueOfDigits(n);
  }

  lemma ParseSigned(t: string, m: nat)
    requires ParseNat(t) == Some(m)
    ensures m <= MAX_INT64 ==> ParseInt(t) == Some(m) && ParseInt("+" + t) == Some(m)
    ensures MIN_INT64 <= 0 - m ==> ParseInt("-" + t) == Some(0 - m)
  {
    assert IsDigit(t[0]);
    assert ("-" + t)[1..] == t && ("+" + t)[1..] == t;
  }

  /** Every 64-bit integer survives printing and parsing. */
  lemma ParseFormat(n: int)
    requires IsInt64(n)
    ensures ParseInt(FormatInt(n)) == Some(n)
  {
    var magnitude: nat := if n < 0 then -n else n;
    ParseFormatNat(magnitude);
    ParseSigned(FormatNat(magnitude), magnitude);
  }

  lemma FormatNatInjective(a: nat, b: nat)
    requires FormatNat(a) == FormatNat(b)
    ensures a == b
  {
    ParseFormatNat(a);
    ParseFormatNat(b);
  }
}
