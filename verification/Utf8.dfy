/** Well-formed UTF-8 (section 3.9 of the Unicode Standard, table 3-7), as Go decodes strings. */
module Utf8 {
  import opened Bytes

  predicate Continuation(b: byte) {
    0x80 <= b <= 0xBF
  }

  /** Length announced by a first byte, 0 if no sequence starts with it. */
  function Width(b: byte): nat {
    if b < 0x80 then 1
    else if 0xC2 <= b <= 0xDF then 2
    else if 0xE0 <= b <= 0xEF then 3
    else if 0xF0 <= b <= 0xF4 then 4
    else 0
  }

  /** The second byte is a continuation, narrowed after the first bytes that need it. */
  predicate SecondOk(first: byte, second: byte) {
    && Continuation(second)
    && (first == 0xE0 ==> second >= 0xA0)
    && (first == 0xED ==> second <= 0x9F)
    && (first == 0xF0 ==> second >= 0x90)
    && (first == 0xF4 ==> second <= 0x8F)
  }

  /** Length of the well-formed sequence at the head of `s`, 0 if there is none. */
  function RuneLen(s: seq<byte>): (n: nat)
    ensures n <= |s| && n <= 4
  {
    if s == [] then 0
    else
      var n := Width(s[0]);
      if |s| < n then 0
      else if n >= 2 && !SecondOk(s[0], s[1]) then 0
      else if n >= 3 && !Continuation(s[2]) then 0
      else if n >= 4 && !Continuation(s[3]) then 0
      else n
  }

  predicate Valid(s: seq<byte>) {
    s == [] || (RuneLen(s) > 0 && Valid(s[RuneLen(s)..]))
  }

  /** The replacement character U+FFFD. */
  const REPLACEMENT: seq<byte> := [0xEF, 0xBF, 0xBD]

  /** How many bytes decoding one step consumes: a rune, or one bad byte. */
  function Advance(s: seq<byte>): (n: nat)
    requires s != []
    ensures 1 <= n <= |s|
  {
    if RuneLen(s) == 0 then 1 else RuneLen(s)
  }

  function Decoded(s: seq<byte>): seq<byte>
    requires s != []
  {
    if RuneLen(s) == 0 then REPLACEMENT else s[..RuneLen(s)]
  }

  /** `s` with every byte outside a well-formed sequence replaced. */
  function Sanitize(s: seq<byte>): seq<byte>
    decreases |s|
  {
    if s == [] then [] else Decoded(s) + Sanitize(s[Advance(s)..])
  }

  lemma {:induction false} SanitizeGrows(s: seq<byte>)
    ensures |Sanitize(s)| >= |s|
    ensures |Sanitize(s)| == |s| <==> Valid(s)
    decreases |s|
  {
    if s != [] {
      SanitizeGrows(s[Advance(s)..]);
    }
  }

  lemma {:induction false} ValidUnchanged(s: seq<byte>)
    requires Valid(s)
    ensures Sanitize(s) == s
    decreases |s|
  {
    if s != [] {
      ValidUnchanged(s[RuneLen(s)..]);
      assert s == s[..RuneLen(s)] + s[RuneLen(s)..];
    }
  }

  /** Sanitizing changes a string exactly when it was not well-formed. */
  lemma SanitizeKeepsExactlyValid(s: seq<byte>)
    ensures Sanitize(s) == s <==> Valid(s)
  {
    SanitizeGrows(s);
    if Valid(s) {
      ValidUnchanged(s);
    }
  }

  /** More input does not change the head sequence once a byte below 0x80 follows in what is there. */
  lemma RuneLenExtends(s: seq<byte>, t: seq<byte>, i: nat)
    requires i < |s| && s[i] < 0x80
    ensures RuneLen(s + t) == RuneLen(s)
  {
    assert forall j | 0 <= j < |s| :: (s + t)[j] == s[j];
  }

  /** The encoding of a code point; surrogate code points become the replacement character. */
  function EncodeRune(cp: nat): seq<byte>
    requires cp < 0x110000
  {
    if cp < 0x80 then [cp]
    else if cp < 0x800 then [0xC0 + cp / 64, 0x80 + cp % 64]
    else if 0xD800 <= cp < 0xE000 then REPLACEMENT
    else if cp < 0x10000 then [0xE0 + cp / 4096, 0x80 + cp / 64 % 64, 0x80 + cp % 64]
    else [0xF0 + cp / 262144, 0x80 + cp / 4096 % 64, 0x80 + cp / 64 % 64, 0x80 + cp % 64]
  }

  // ----- well-formed text is encoded text -----

  /** A Unicode scalar value: any code point but a surrogate. */
  type Scalar = cp: nat | cp < 0xD800 || 0xE000 <= cp < 0x110000

  function EncodeAll(cps: seq<Scalar>): seq<byte>
    decreases |cps|
  {
    if cps == [] then [] else EncodeRune(cps[0]) + EncodeAll(cps[1..])
  }

  lemma EncodedLen(cp: Scalar, tail: seq<byte>)
    ensures RuneLen(EncodeRune(cp) + tail) == |EncodeRune(cp)| > 0
  {
    var e := EncodeRune(cp);
    var s := e + tail;
    assert s[0] == e[0] && (|e| > 1 ==> s[1] == e[1]) && (|e| > 2 ==> s[2] == e[2]) && (|e| > 3 ==> s[3] == e[3]);
    Places(cp);
  }

  /** The base-64 places of a code point. */
  lemma Places(cp: nat)
    ensures cp < 0x800 ==> cp / 64 < 32 && (cp >= 0x80 ==> cp / 64 >= 2)
    ensures 0x800 <= cp < 0x10000 ==> cp / 4096 < 16 && (cp / 4096 == 0 ==> cp / 64 % 64 >= 32)
    ensures 0x800 <= cp < 0x10000 && cp / 4096 == 13 && cp / 64 % 64 >= 32 ==> 0xD800 <= cp < 0xE000
    ensures 0x10000 <= cp < 0x110000 ==> cp / 262144 <= 4 && (cp / 262144 == 0 ==> cp / 4096 % 64 >= 16)
    ensures 0x10000 <= cp < 0x110000 && cp / 262144 == 4 ==> cp / 4096 % 64 < 16
  {
  }

  /** The scalar value at the head of well-formed text. */
  lemma HeadScalar(s: seq<byte>) returns (cp: Scalar)
    requires RuneLen(s) > 0
    ensures s[..RuneLen(s)] == EncodeRune(cp)
  {
    var n := RuneLen(s);
    if n == 1 {
      cp := s[0];
    } else if n == 2 {
      cp := TwoBytes(s[0], s[1]);
    } else if n == 3 {
      cp := ThreeBytes(s[0], s[1], s[2]);
    } else {
      cp := FourBytes(s[0], s[1], s[2], s[3]);
    }
  }

  lemma TwoBytes(a: byte, b: byte) returns (cp: Scalar)
    requires Width(a) == 2 && SecondOk(a, b)
    ensures EncodeRune(cp) == [a, b]
  {
    var hi: int, lo: int := a - 0xC0, b - 0x80;
    cp := hi * 64 + lo;
  }

  lemma ThreeBytes(a: byte, b: byte, c: byte) returns (cp: Scalar)
    requires Width(a) == 3 && SecondOk(a, b) && Continuation(c)
    ensures EncodeRune(cp) == [a, b, c]
  {
    var hi: int, mid: int, lo: int := a - 0xE0, b - 0x80, c - 0x80;
    var n := hi * 4096 + mid * 64 + lo;
    assert n / 4096 == hi && n / 64 == hi * 64 + mid && n / 64 % 64 == mid && n % 64 == lo;
    cp := n;
  }

  lemma FourPlaces(hi: nat, mid: nat, low: nat, last: nat)
    requires mid < 64 && low < 64 && last < 64
    ensures var n := hi * 262144 + mid * 4096 + low * 64 + last;
            n / 262144 == hi && n / 4096 % 64 == mid && n / 64 % 64 == low && n % 64 == last
  {
    var n := hi * 262144 + mid * 4096 + low * 64 + last;
    assert n / 4096 == hi * 64 + mid && n / 64 == hi * 4096 + mid * 64 + low;
  }

  lemma FourBytes(a: byte, b: byte, c: byte, d: byte) returns (cp: Scalar)
    requires Width(a) == 4 && SecondOk(a, b) && Continuation(c) && Continuation(d)
    ensures EncodeRune(cp) == [a, b, c, d]
  {
    var hi: int, mid: int, low: int, last: int := a - 0xF0, b - 0x80, c - 0x80, d - 0x80;
    var n := hi * 262144 + mid * 4096 + low * 64 + last;
    FourPlaces(hi, mid, low, last);
    cp := n;
  }

  lemma {:induction false} ScalarsOf(s: seq<byte>) returns (cps: seq<Scalar>)
    requires Valid(s)
    ensures s == EncodeAll(cps)
    decreases |s|
  {
    hide EncodeRune, RuneLen;
    if s == [] {
      cps := [];
    } else {
      var cp := HeadScalar(s);
      var rest := ScalarsOf(s[RuneLen(s)..]);
      cps := [cp] + rest;
      assert cps[1..] == rest && s == s[..RuneLen(s)] + s[RuneLen(s)..];
    }
  }

  lemma {:induction false} EncodedValid(cps: seq<Scalar>)
    ensures Valid(EncodeAll(cps))
    decreases |cps|
  {
    hide EncodeRune, RuneLen;
    if cps != [] {
      var e, rest := EncodeRune(cps[0]), EncodeAll(cps[1..]);
      EncodedLen(cps[0], rest);
      EncodedValid(cps[1..]);
      assert (e + rest)[|e|..] == rest;
    }
  }

  /** Well-formed is exactly what encoding scalar values gives. */
  lemma ValidIffEncoded(s: seq<byte>)
    ensures Valid(s) <==> exists cps: seq<Scalar> :: s == EncodeAll(cps)
  {
    hide Valid, EncodeAll;
    if Valid(s) {
      var cps := ScalarsOf(s);
    }
    if exists cps: seq<Scalar> :: s == EncodeAll(cps) {
      var cps: seq<Scalar> :| s == EncodeAll(cps);
      EncodedValid(cps);
    }
  }
}
