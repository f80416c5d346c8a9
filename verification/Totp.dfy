/** The six-digit codes of RFC 6238: SHA-1, thirty-second steps, one step of tolerance on each side. */
module Totp {
  import opened Bytes
  import opened Decimal

  const TWO_TO_64: int := 0x1_0000_0000_0000_0000

  type Mac = m: seq<byte> | |m| == 20 witness seq(20, _ => 0)

  /** HMAC-SHA-1 under the seed. */
  type Hmac = seq<byte> -> Mac

  type int64 = n: int | MIN_INT64 <= n <= MAX_INT64

  /** The step a moment in Unix seconds belongs to. The division rounds toward zero. */
  function StepOf(t: int64): (c: int)
    ensures IsInt64(c - 1) && IsInt64(c + 1)
  {
    var n: int := t;
    if n >= 0 then n / 30 else -(-n / 30)
  }

  /** The eight bytes that are authenticated; a negative counter wraps around. */
  function CounterBytes(c: int): (s: seq<byte>)
    requires IsInt64(c)
    ensures |s| == 8
  {
    ToBigEndian(if c < 0 then c + TWO_TO_64 else c, 8)
  }

  function Offset(sum: Mac): (o: nat)
    ensures o + 4 < |sum|
  {
    sum[19] % 16
  }

  function Combine(a: nat, b: nat, c: nat, d: nat): nat {
    a * 0x1000000 + b * 0x10000 + c * 0x100 + d
  }

  /** Four bytes from the offset on, without the top bit. */
  function Truncate(sum: Mac): nat {
    var o := Offset(sum);
    Combine(sum[o] % 128, sum[o + 1], sum[o + 2], sum[o + 3])
  }

  /** Decimal with zeros in front, at least `width` wide. */
  function ZeroPadded(n: nat, width: nat): string {
    var s := FormatNat(n);
    if |s| >= width then s else seq(width - |s|, _ => '0') + s
  }

  function TotpAt(hmac: Hmac, c: int): (code: string)
    requires IsInt64(c)
  {
    ZeroPadded(Truncate(hmac(CounterBytes(c))) % 1000000, 6)
  }

  method VerifyTotp(hmac: Hmac, code: string, now: int64) returns (ok: bool)
    ensures ok <==> exists c | StepOf(now) - 1 <= c <= StepOf(now) + 1 :: code == TotpAt(hmac, c)
  {
    forall c | StepOf(now) - 1 <= c <= StepOf(now) + 1 ensures |TotpAt(hmac, c)| == 6 {
      SixDigits(hmac, c);
    }
    if |code| != 6 {
      return false;
    }
    var counter := StepOf(now);
    for c := counter - 1 to counter + 2
      invariant forall b | counter - 1 <= b < c :: code != TotpAt(hmac, b)
    {
      if code == TotpAt(hmac, c) {
        return true;
      }
    }
    return false;
  }

  // ----- truncation and rendering -----

  lemma FourBytes(a: byte, b: byte, c: byte, d: byte)
    ensures FromBigEndian([a, b, c, d]) == Combine(a, b, c, d)
  {
    assert [a, b, c, d][..3] == [a, b, c] && [a, b, c][..2] == [a, b] && [a, b][..1] == [a] && [a][..0] == [];
    assert FromBigEndian([a]) == FromBigEndian([]) * 256 + a;
    assert FromBigEndian([a, b]) == FromBigEndian([a]) * 256 + b;
    assert FromBigEndian([a, b, c]) == FromBigEndian([a, b]) * 256 + c;
    assert FromBigEndian([a, b, c, d]) == FromBigEndian([a, b, c]) * 256 + d;
  }

  lemma DropTopBit(a: byte, b: byte, c: byte, d: byte)
    ensures Combine(a, b, c, d) % 0x80000000 == Combine(a % 128, b, c, d)
  {
    assert Combine(a, b, c, d) == (a / 128) * 0x80000000 + Combine(a % 128, b, c, d);
  }

  /** Dynamic truncation of section 5.3 of RFC 4226: the low 31 bits of the big-endian number made of
      the four bytes at the offset the last four bits name, all of them inside the MAC. */
  lemma TruncateMeansLow31Bits(sum: Mac)
    ensures var o := sum[|sum| - 1] % 16;
            && o + 4 <= |sum|
            && Truncate(sum) == FromBigEndian(sum[o..o + 4]) % 0x80000000
  {
    var o := Offset(sum);
    assert sum[o..o + 4] == [sum[o], sum[o + 1], sum[o + 2], sum[o + 3]];
    FourBytes(sum[o], sum[o + 1], sum[o + 2], sum[o + 3]);
    DropTopBit(sum[o], sum[o + 1], sum[o + 2], sum[o + 3]);
  }

  function Pow10(k: nat): (p: nat)
    ensures p >= 1
  {
    if k == 0 then 1 else 10 * Pow10(k - 1)
  }

  lemma {:induction false} DigitCount(n: nat, k: nat)
    requires k >= 1 && n < Pow10(k)
    ensures |Digits(n)| <= k
  {
    if n >= 10 {
      DigitCount(n / 10, k - 1);
    }
  }

  lemma {:induction false} LeadingZeros(zeros: seq<digit>, ds: seq<digit>)
    requires forall i | 0 <= i < |zeros| :: zeros[i] == 0
    ensures Value(zeros + ds) == Value(ds)
    decreases |zeros| + |ds|
  {
    var all := zeros + ds;
    if ds != [] {
      assert all[..|all| - 1] == zeros + ds[..|ds| - 1];
      LeadingZeros(zeros, ds[..|ds| - 1]);
    } else if zeros != [] {
      assert all[..|all| - 1] == zeros[..|zeros| - 1] + ds;
      LeadingZeros(zeros[..|zeros| - 1], ds);
    }
  }

  lemma FormatLength(n: nat)
    ensures |FormatNat(n)| == |Digits(n)|
  {
  }

  /** Padding reaches the width exactly when the number fits, and keeps the number. */
  lemma PaddedReadsBack(n: nat, width: nat)
    requires width >= 1 && n < Pow10(width)
    ensures var s := ZeroPadded(n, width); |s| == width && ParseNat(s) == Some(n)
  {
    hide Value, Digits, Pow10, FormatNat;
    DigitCount(n, width);
    ParseFormatNat(n);
    FormatLength(n);
    var s := FormatNat(n);
    var zeros: string := seq(width - |s|, _ => '0');
    var ds := DigitsOf(s);
    assert AllDigits(zeros + s);
    assert DigitsOf(zeros + s) == DigitsOf(zeros) + ds;
    LeadingZeros(DigitsOf(zeros), ds);
    assert |s| >= width ==> zeros + s == s;
  }

  lemma Million()
    ensures Pow10(6) == 1000000
  {
    assert Pow10(3) == 1000;
  }

  /** Every code has exactly six digits, and they are the last six of the truncated value. */
  lemma SixDigits(hmac: Hmac, c: int)
    requires IsInt64(c)
    ensures var code := TotpAt(hmac, c);
            && |code| == 6
            && AllDigits(code)
            && ParseNat(code) == Some(Truncate(hmac(CounterBytes(c))) % 1000000)
  {
    hide Truncate, ZeroPadded;
    Million();
    PaddedReadsBack(Truncate(hmac(CounterBytes(c))) % 1000000, 6);
  }

  // ----- counters -----

  lemma Pow256Of8()
    ensures Pow256(8) == TWO_TO_64
  {
    assert Pow256(4) == 0x1_0000_0000;
  }

  /** Different steps authenticate different messages, before and after the wrap-around. */
  lemma CounterBytesInjective(a: int, b: int)
    requires IsInt64(a) && IsInt64(b) && CounterBytes(a) == CounterBytes(b)
    ensures a == b
  {
    Pow256Of8();
    BigEndianRoundTrip(if a < 0 then a + TWO_TO_64 else a, 8);
    BigEndianRoundTrip(if b < 0 then b + TWO_TO_64 else b, 8);
  }

  ghost predicate Accepted(hmac: Hmac, code: string, t: int64) {
    exists c | StepOf(t) - 1 <= c <= StepOf(t) + 1 :: code == TotpAt(hmac, c)
  }

  lemma StepsApart(s: int64, t: int64)
    ensures -30 <= t - s <= 30 ==> -1 <= StepOf(t) - StepOf(s) <= 1
    ensures s >= 0 && t - s >= 60 ==> StepOf(t) - StepOf(s) >= 2
  {
  }

  /** A code made at `s` is accepted half a minute before and after. */
  lemma AcceptedWithinThirtySeconds(hmac: Hmac, s: int64, t: int64)
    requires -30 <= t - s <= 30
    ensures Accepted(hmac, TotpAt(hmac, StepOf(s)), t)
  {
    hide TotpAt, StepOf;
    StepsApart(s, t);
  }

  /** A code made at `s` is accepted at `t` exactly when the steps are adjacent, or when an adjacent step
      happens to give the same digits from another message. */
  lemma AcceptedIffAdjacent(hmac: Hmac, s: int64, t: int64)
    ensures Accepted(hmac, TotpAt(hmac, StepOf(s)), t) <==>
              || StepOf(t) - 1 <= StepOf(s) <= StepOf(t) + 1
              || exists c | StepOf(t) - 1 <= c <= StepOf(t) + 1 ::
                   CounterBytes(c) != CounterBytes(StepOf(s)) && TotpAt(hmac, c) == TotpAt(hmac, StepOf(s))
  {
    hide TotpAt, StepOf, CounterBytes;
    if Accepted(hmac, TotpAt(hmac, StepOf(s)), t) {
      var c :| StepOf(t) - 1 <= c <= StepOf(t) + 1 && TotpAt(hmac, StepOf(s)) == TotpAt(hmac, c);
      if CounterBytes(c) == CounterBytes(StepOf(s)) {
        CounterBytesInjective(c, StepOf(s));
      }
    }
  }

  /** A code older than a minute passes only by such a coincidence. */
  lemma StaleNeedsCollision(hmac: Hmac, s: int64, t: int64)
    requires s >= 0 && t - s >= 60 && Accepted(hmac, TotpAt(hmac, StepOf(s)), t)
    ensures exists c | StepOf(t) - 1 <= c <= StepOf(t) + 1 ::
              CounterBytes(c) != CounterBytes(StepOf(s)) && TotpAt(hmac, c) == TotpAt(hmac, StepOf(s))
  {
    hide TotpAt, StepOf, CounterBytes;
    StepsApart(s, t);
    AcceptedIffAdjacent(hmac, s, t);
  }

  lemma {:induction false} AllOnes(n: nat, width: nat)
    requires n == Pow256(width) - 1
    ensures ToBigEndian(n, width) == seq(width, _ => 255)
  {
    if width > 0 {
      assert n == 256 * (Pow256(width - 1) - 1) + 255;
      AllOnes(n / 256, width - 1);
    }
  }

  /** In the first step of the epoch the step before wraps to eight bytes of all ones. */
  lemma FirstStepWraps(hmac: Hmac, t: int64, code: string)
    requires 0 <= t < 30
    requires code == ZeroPadded(Truncate(hmac(seq(8, _ => 255))) % 1000000, 6)
    ensures Accepted(hmac, code, t)
  {
    hide Truncate, ZeroPadded;
    Pow256Of8();
    AllOnes(TWO_TO_64 - 1, 8);
    assert CounterBytes(-1) == seq(8, _ => 255);
    assert StepOf(t) == 0 && code == TotpAt(hmac, -1);
  }

  // ----- acceptance without the code's own functions -----

  function Unsigned(c: int): int {
    if c < 0 then c + TWO_TO_64 else c
  }

  /** The authenticated message is the counter as an unsigned 64-bit number, most significant byte first. */
  lemma CounterBytesValue(c: int)
    requires IsInt64(c)
    ensures |CounterBytes(c)| == 8 && FromBigEndian(CounterBytes(c)) == Unsigned(c)
  {
    Pow256Of8();
    BigEndianRoundTrip(Unsigned(c), 8);
  }

  /** The number RFC 4226 makes of a MAC: the low 31 bits of the four bytes at the offset its last half-byte
      names, modulo a million. */
  function HotpValue(sum: Mac): nat {
    var o := sum[19] % 16;
    FromBigEndian(sum[o..o + 4]) % 0x80000000 % 1000000
  }

  ghost predicate Renders(code: string, n: nat) {
    |code| == 6 && ParseNat(code) == Some(n)
  }

  lemma {:induction false} ValueInjective(a: seq<digit>, b: seq<digit>)
    requires |a| == |b| && Value(a) == Value(b)
    ensures a == b
    decreases |a|
  {
    if a != [] {
      var x, y := a[..|a| - 1], b[..|b| - 1];
      assert Value(a) / 10 == Value(x) && Value(b) / 10 == Value(y);
      ValueInjective(x, y);
      assert a == x + [a[|a| - 1]] && b == y + [b[|b| - 1]];
    }
  }

  /** Six digits that denote a number are one text. */
  lemma RendersOnce(a: string, b: string, n: nat)
    requires Renders(a, n) && Renders(b, n)
    ensures a == b
  {
    ValueInjective(DigitsOf(a), DigitsOf(b));
    forall i | 0 <= i < 6 ensures a[i] == b[i] {
      assert DigitsOf(a)[i] == DigitsOf(b)[i];
    }
  }

  lemma TotpRenders(hmac: Hmac, c: int)
    requires IsInt64(c)
    ensures Renders(TotpAt(hmac, c), HotpValue(hmac(CounterBytes(c))))
  {
    hide TotpAt, Truncate;
    SixDigits(hmac, c);
    TruncateMeansLow31Bits(hmac(CounterBytes(c)));
  }

  /** The message of a step: eight bytes whose big-endian number is the step modulo 2 to the 64. */
  ghost predicate MessageOf(m: seq<byte>, c: int) {
    |m| == 8 && FromBigEndian(m) == c % TWO_TO_64
  }

  /** A code is accepted at a time from the epoch on if and only if it is the six digits of the MAC of the
      message of that time's half-minute or of a neighbouring one. */
  lemma AcceptedIffRfc(hmac: Hmac, code: string, t: int64)
    requires t >= 0
    ensures Accepted(hmac, code, t) <==>
              exists c, m | t / 30 - 1 <= c <= t / 30 + 1 && MessageOf(m, c) :: Renders(code, HotpValue(hmac(m)))
  {
    hide TotpAt, CounterBytes, HotpValue, Renders;
    assert StepOf(t) == t / 30;
    forall c | t / 30 - 1 <= c <= t / 30 + 1
      ensures MessageOf(CounterBytes(c), c) && Renders(TotpAt(hmac, c), HotpValue(hmac(CounterBytes(c))))
    {
      CounterBytesValue(c);
      TotpRenders(hmac, c);
    }
    forall c, m | t / 30 - 1 <= c <= t / 30 + 1 && MessageOf(m, c) ensures m == CounterBytes(c) {
      CounterBytesValue(c);
      BigEndianInjective(m, CounterBytes(c));
    }
    forall c | t / 30 - 1 <= c <= t / 30 + 1 && Renders(code, HotpValue(hmac(CounterBytes(c)))) ensures code == TotpAt(hmac, c) {
      RendersOnce(code, TotpAt(hmac, c), HotpValue(hmac(CounterBytes(c))));
    }
  }
}
