/** Session cookies: an expiry in decimal, a dot, and the hex MAC of the expiry's text. */
module SessionToken {
  import opened Bytes
  import opened Decimal
  import opened Text

  type Mac = m: seq<byte> | |m| == 32 witness seq(32, _ => 0)

  /** HMAC-SHA-256 under the signing key, of the text's bytes. */
  type Hmac = string -> Mac

  function HexDigit(d: nat): (c: char)
    requires d < 16
    ensures IsDigit(c) || 'a' <= c <= 'f'
  {
    if d < 10 then (d + '0' as int) as char else (d - 10 + 'a' as int) as char
  }

  function Hex(s: seq<byte>): (t: string)
    ensures |t| == 2 * |s| && forall i | 0 <= i < |t| :: IsDigit(t[i]) || 'a' <= t[i] <= 'f'
  {
    seq(2 * |s|, i requires 0 <= i < 2 * |s| => HexDigit(if i % 2 == 0 then s[i / 2] / 16 else s[i / 2] % 16))
  }

  function Sign(hmac: Hmac, payload: string): string {
    Hex(hmac(payload))
  }

  function NewSession(hmac: Hmac, expiry: int): string
    requires IsInt64(expiry)
  {
    FormatInt(expiry) + ("." + Sign(hmac, FormatInt(expiry)))
  }

  /** What is before and after the first separator, if there is one. */
  function Cut(s: string, sep: char): Option<(string, string)> {
    var n := Find(s, sep);
    if n == |s| then None else Some((s[..n], s[n + 1..]))
  }

  function ValidSession(hmac: Hmac, token: string, now: int): bool {
    var parts := Cut(token, '.');
    if parts.None? then false
    else
      var (payload, mac) := parts.value;
      if mac != Sign(hmac, payload) then false
      else
        var expiry := ParseInt(payload);
        expiry.Some? && now < expiry.value
  }

  lemma CutAtFirst(a: string, sep: char, b: string)
    requires sep !in a
    ensures Cut(a + ([sep] + b), sep) == Some((a, b))
  {
    var s := a + ([sep] + b);
    FindUnique(s, sep, |a|);
    assert s[..|a|] == a && s[|a| + 1..] == b;
  }

  lemma CutWhole(s: string, sep: char)
    requires Cut(s, sep).Some?
    ensures var (a, b) := Cut(s, sep).value; sep !in a && s == a + ([sep] + b)
  {
  }

  lemma NoDot(n: int)
    ensures '.' !in FormatInt(n)
  {
    assert !IsDigit('.');
  }

  /** A token is valid exactly when it is a dot-free number, a dot and that number's MAC, and the number
      lies ahead. */
  lemma ValidIff(hmac: Hmac, token: string, now: int)
    ensures ValidSession(hmac, token, now) <==>
              exists payload: string ::
                && '.' !in payload
                && token == payload + ("." + Sign(hmac, payload))
                && ParseInt(payload).Some?
                && now < ParseInt(payload).value
  {
    hide Sign, ParseInt, Cut;
    if ValidSession(hmac, token, now) {
      CutWhole(token, '.');
      var payload := Cut(token, '.').value.0;
      assert '.' !in payload && token == payload + ("." + Sign(hmac, payload));
    }
    forall payload: string | '.' !in payload && token == payload + ("." + Sign(hmac, payload))
      ensures Cut(token, '.') == Some((payload, Sign(hmac, payload)))
    {
      CutAtFirst(payload, '.', Sign(hmac, payload));
    }
  }

  /** A fresh token is valid until its expiry and not from then on, for every 64-bit expiry. */
  lemma IssuedValidUntilExpiry(hmac: Hmac, expiry: int, now: int)
    requires IsInt64(expiry)
    ensures ValidSession(hmac, NewSession(hmac, expiry), now) <==> now < expiry
  {
    hide Sign, ParseInt, FormatInt, Cut;
    NoDot(expiry);
    CutAtFirst(FormatInt(expiry), '.', Sign(hmac, FormatInt(expiry)));
    ParseFormat(expiry);
  }

  lemma HexDigitInjective(a: nat, b: nat)
    requires a < 16 && b < 16 && HexDigit(a) == HexDigit(b)
    ensures a == b
  {
  }

  const HEX_DIGITS: string := "0123456789abcdef"

  /** Two lower-case hexadecimal digits for each byte, the high half first. */
  lemma HexReads(s: seq<byte>, i: nat)
    requires i < |s|
    ensures Hex(s)[2 * i] == HEX_DIGITS[s[i] / 16] && Hex(s)[2 * i + 1] == HEX_DIGITS[s[i] % 16]
  {
    HexTable(s[i] / 16);
    HexTable(s[i] % 16);
  }

  lemma HexTable(d: nat)
    requires d < 16
    ensures HexDigit(d) == HEX_DIGITS[d]
  {
  }

  lemma HexInjective(a: seq<byte>, b: seq<byte>)
    requires Hex(a) == Hex(b)
    ensures a == b
  {
    hide HexDigit;
    assert |a| == |b|;
    forall i | 0 <= i < |a| ensures a[i] == b[i] {
      assert Hex(a)[2 * i] == HexDigit(a[i] / 16) && Hex(b)[2 * i] == HexDigit(b[i] / 16);
      assert Hex(a)[2 * i + 1] == HexDigit(a[i] % 16) && Hex(b)[2 * i + 1] == HexDigit(b[i] % 16);
      HexDigitInjective(a[i] / 16, b[i] / 16);
      HexDigitInjective(a[i] % 16, b[i] % 16);
    }
  }

  /** A valid token that carries the MAC of an issued one is that token, or its own text before the dot
      has the same 32-byte MAC as another text: a collision. */
  lemma StolenMacNeedsCollision(hmac: Hmac, expiry: int, token: string, payload: string, now: int)
    requires IsInt64(expiry) && '.' !in payload && token == payload + ("." + Sign(hmac, FormatInt(expiry)))
    requires ValidSession(hmac, token, now)
    ensures token == NewSession(hmac, expiry) || (payload != FormatInt(expiry) && hmac(payload) == hmac(FormatInt(expiry)))
  {
    hide ParseInt, FormatInt, Cut, Hex;
    CutAtFirst(payload, '.', Sign(hmac, FormatInt(expiry)));
    HexInjective(hmac(payload), hmac(FormatInt(expiry)));
  }

  /** Different expiries give different tokens, whatever the MAC. */
  lemma TokensDiffer(hmac: Hmac, a: int, b: int)
    requires IsInt64(a) && IsInt64(b) && NewSession(hmac, a) == NewSession(hmac, b)
    ensures a == b
  {
    hide Sign, ParseInt, FormatInt, Cut;
    NoDot(a);
    NoDot(b);
    CutAtFirst(FormatInt(a), '.', Sign(hmac, FormatInt(a)));
    CutAtFirst(FormatInt(b), '.', Sign(hmac, FormatInt(b)));
    ParseFormat(a);
    ParseFormat(b);
  }
}
