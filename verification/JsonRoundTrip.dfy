/** A string written by the encoder is read back by the parser. */
module JsonRoundTrip {
  import opened Bytes
  import opened Json
  import Utf8

  lemma HexPlaces(cp: nat)
    ensures cp / 4096 * 4096 + cp / 256 % 16 * 256 + cp / 16 % 16 * 16 + cp % 16 == cp
  {
    assert cp / 256 / 16 == cp / 4096 && cp / 16 / 16 == cp / 256;
  }

  lemma UnicodeEscapeRead(cp: nat, tail: seq<byte>)
    requires cp < 0x10000
    ensures UnicodeUnit(UnicodeEscape(cp) + tail) == Some(cp)
  {
    hide HexValue, HexDigit;
    HexPlaces(cp);
  }

  /** An escaped code unit outside the surrogates is one piece denoting that code point. */
  lemma EscapePiece(cp: nat, tail: seq<byte>)
    requires cp < 0xD800 || 0xE000 <= cp < 0x10000
    ensures NextPiece(UnicodeEscape(cp) + tail) == Some(Piece(Utf8.EncodeRune(cp), 6))
  {
    hide Utf8.EncodeRune;
    UnicodeEscapeRead(cp, tail);
    assert Unescape(LETTER_U).None?;
  }

  lemma RawPiece(s: seq<byte>, tail: seq<byte>)
    requires s != [] && Utf8.RuneLen(s) > 0 && s[0] >= 0x20 && s[0] != QUOTE && s[0] != BACKSLASH
    ensures NextPiece(s[..Utf8.RuneLen(s)] + tail) == Some(Piece(Utf8.Decoded(s), Utf8.Advance(s)))
  {
    var n := Utf8.RuneLen(s);
    var u := s[..n] + tail;
    assert forall j | 0 <= j < n :: u[j] == s[j];
    assert u[..n] == s[..n];
  }

  lemma AsciiTokenPiece(s: seq<byte>, tail: seq<byte>)
    requires s != [] && s[0] < 0x80
    ensures (Token(s) + tail)[0] != QUOTE
    ensures NextPiece(Token(s) + tail) == Some(Piece(Utf8.Decoded(s), |Token(s)|))
  {
    var b := s[0];
    assert s[..1] == [b];
    if Safe(b) {
      RawPiece(s, tail);
    } else if ShortEscape(b).None? {
      EscapePiece(b, tail);
    }
  }

  /** What the encoder writes for a character is one piece that denotes its decoding. */
  lemma TokenPiece(s: seq<byte>, tail: seq<byte>)
    requires s != []
    ensures (Token(s) + tail)[0] != QUOTE
    ensures NextPiece(Token(s) + tail) == Some(Piece(Utf8.Decoded(s), |Token(s)|))
  {
    hide NextPiece, UnicodeEscape, UnicodeUnit;
    if s[0] < 0x80 {
      AsciiTokenPiece(s, tail);
    } else if Utf8.RuneLen(s) == 0 {
      EscapePiece(0xFFFD, tail);
    } else if s[..Utf8.RuneLen(s)] == [0xE2, 0x80, 0xA8] {
      EscapePiece(0x2028, tail);
    } else if s[..Utf8.RuneLen(s)] == [0xE2, 0x80, 0xA9] {
      EscapePiece(0x2029, tail);
    } else {
      RawPiece(s, tail);
    }
  }

  lemma RegroupToken(token: seq<byte>, body: seq<byte>, tail: seq<byte>)
    ensures token + body + ([QUOTE] + tail) == token + (body + ([QUOTE] + tail))
    ensures (token + (body + ([QUOTE] + tail)))[|token|..] == body + ([QUOTE] + tail)
  {
  }

  /** Reading a written literal gives the string back, with malformed bytes replaced, and stops at its end. */
  lemma {:induction false} ParseEncoded(s: seq<byte>, tail: seq<byte>)
    ensures ParseString(EncodeString(s) + ([QUOTE] + tail)) == Some((Utf8.Sanitize(s), tail))
    decreases |s|
  {
    if s == [] {
      assert EncodeString(s) + ([QUOTE] + tail) == [QUOTE] + tail;
      assert ([QUOTE] + tail)[1..] == tail;
    } else {
      hide Token, NextPiece, Utf8.Decoded, Utf8.Advance;
      var rest := s[Utf8.Advance(s)..];
      ParseEncoded(rest, tail);
      RegroupToken(Token(s), EncodeString(rest), tail);
      TokenPiece(s, EncodeString(rest) + ([QUOTE] + tail));
    }
  }

  /** The two-character escapes of section 7 of RFC 8259. */
  lemma EscapeLetters()
    ensures Unescape('"' as int) == Some(0x22) && Unescape('\\' as int) == Some(0x5C) && Unescape('/' as int) == Some(0x2F)
    ensures Unescape('b' as int) == Some(0x08) && Unescape('f' as int) == Some(0x0C) && Unescape('n' as int) == Some(0x0A)
    ensures Unescape('r' as int) == Some(0x0D) && Unescape('t' as int) == Some(0x09)
  {
  }
}
