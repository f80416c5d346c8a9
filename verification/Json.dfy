/** JSON texts (RFC 8259): the encoder for strings and a parser for all values, on bytes. */
module Json {
  import opened Bytes
  import Utf8

  const QUOTE: byte := 0x22
  const BACKSLASH: byte := 0x5C
  const COLON: byte := 0x3A
  const COMMA: byte := 0x2C
  const OPEN_BRACE: byte := 0x7B
  const CLOSE_BRACE: byte := 0x7D
  const OPEN_BRACKET: byte := 0x5B
  const CLOSE_BRACKET: byte := 0x5D
  const LETTER_U: byte := 0x75

  datatype Value =
    | Literal(name: seq<byte>)
    | Number(text: seq<byte>)
    | Str(s: seq<byte>)
    | Arr(elements: seq<Value>)
    | Obj(members: seq<(seq<byte>, Value)>)

  // ----- strings (section 7) -----

  function HexDigit(d: nat): (b: byte)
    requires d < 16
    ensures HexValue(b) == Some(d)
  {
    if d < 10 then 0x30 + d else 0x61 + (d - 10)
  }

  function HexValue(b: byte): (v: Option<nat>)
    ensures v.Some? ==> v.value < 16 && b != QUOTE
  {
    if 0x30 <= b <= 0x39 then Some(b - 0x30)
    else if 0x61 <= b <= 0x66 then Some(b - 0x61 + 10)
    else if 0x41 <= b <= 0x46 then Some(b - 0x41 + 10)
    else None
  }

  /** Bytes the encoder copies: printable ASCII but quotes, backslashes and the HTML-sensitive ones. */
  predicate Safe(b: byte) {
    0x20 <= b < 0x80 && b != QUOTE && b != BACKSLASH && b != 0x3C && b != 0x3E && b != 0x26
  }

  /** The letter of a two-character escape: b f n r t, or the character itself. */
  function ShortEscape(b: byte): Option<byte> {
    if b == QUOTE || b == BACKSLASH then Some(b)
    else if b == 0x08 then Some(0x62)
    else if b == 0x0C then Some(0x66)
    else if b == 0x0A then Some(0x6E)
    else if b == 0x0D then Some(0x72)
    else if b == 0x09 then Some(0x74)
    else None
  }

  function Unescape(letter: byte): Option<byte> {
    if letter == QUOTE || letter == BACKSLASH || letter == 0x2F then Some(letter)
    else if letter == 0x62 then Some(0x08)
    else if letter == 0x66 then Some(0x0C)
    else if letter == 0x6E then Some(0x0A)
    else if letter == 0x72 then Some(0x0D)
    else if letter == 0x74 then Some(0x09)
    else None
  }

  /** A backslash-u escape of a code unit. */
  function UnicodeEscape(cp: nat): (s: seq<byte>)
    requires cp < 0x10000
    ensures |s| == 6 && s[0] == BACKSLASH
  {
    [BACKSLASH, LETTER_U, HexDigit(cp / 4096), HexDigit(cp / 256 % 16), HexDigit(cp / 16 % 16), HexDigit(cp % 16)]
  }

  /** What the encoder writes for the first character of a string. */
  function Token(s: seq<byte>): (t: seq<byte>)
    requires s != []
    ensures t != []
  {
    var b := s[0];
    if b < 0x80 then
      if Safe(b) then [b]
      else if ShortEscape(b).Some? then [BACKSLASH, ShortEscape(b).value]
      else UnicodeEscape(b)
    else if Utf8.RuneLen(s) == 0 then UnicodeEscape(0xFFFD)
    else if s[..Utf8.RuneLen(s)] == [0xE2, 0x80, 0xA8] then UnicodeEscape(0x2028)
    else if s[..Utf8.RuneLen(s)] == [0xE2, 0x80, 0xA9] then UnicodeEscape(0x2029)
    else s[..Utf8.RuneLen(s)]
  }

  /** The body of a string literal, without its quotes. */
  function EncodeString(s: seq<byte>): seq<byte>
    decreases |s|
  {
    if s == [] then [] else Token(s) + EncodeString(s[Utf8.Advance(s)..])
  }

  /** The code unit of a backslash-u escape at the head of `s`. */
  function UnicodeUnit(s: seq<byte>): (u: Option<nat>)
    ensures u.Some? ==> |s| >= 6 && u.value < 0x10000
  {
    if |s| < 6 || s[0] != BACKSLASH || s[1] != LETTER_U then None
    else
      match (HexValue(s[2]), HexValue(s[3]), HexValue(s[4]), HexValue(s[5]))
      case (Some(a), Some(b), Some(c), Some(d)) => Some(a * 4096 + b * 256 + c * 16 + d)
      case _ => None
  }

  /** One character of a string literal: what it denotes and how much of the text it takes. */
  datatype Piece = Piece(text: seq<byte>, len: nat)

  function NextPiece(s: seq<byte>): (p: Option<Piece>)
    requires s != [] && s[0] != QUOTE
    ensures p.Some? ==> 1 <= p.value.len <= |s|
  {
    if s[0] == BACKSLASH then
      if |s| >= 2 && Unescape(s[1]).Some? then Some(Piece([Unescape(s[1]).value], 2))
      else if UnicodeUnit(s).Some? then
        var u := UnicodeUnit(s).value;
        var low := UnicodeUnit(s[6..]);
        if 0xD800 <= u < 0xDC00 && low.Some? && 0xDC00 <= low.value < 0xE000
        then Some(Piece(Utf8.EncodeRune(0x10000 + (u - 0xD800) * 1024 + (low.value - 0xDC00)), 12))
        else Some(Piece(Utf8.EncodeRune(u), 6))
      else None
    else if s[0] < 0x20 then None
    else Some(Piece(Utf8.Decoded(s), Utf8.Advance(s)))
  }

  /** The rest of a string literal after its opening quote, and the text after its closing one. */
  function ParseString(s: seq<byte>): (r: Option<(seq<byte>, seq<byte>)>)
    ensures r.Some? ==> |r.value.1| < |s|
    decreases |s|
  {
    if s == [] then None
    else if s[0] == QUOTE then Some(([], s[1..]))
    else
      var p := NextPiece(s);
      if p.None? then None
      else
        var rest := ParseString(s[p.value.len..]);
        if rest.None? then None else Some((p.value.text + rest.value.0, rest.value.1))
  }

  // ----- numbers (section 6) -----

  predicate IsDigit(b: byte) {
    0x30 <= b <= 0x39
  }

  function DigitRun(s: seq<byte>): (n: nat)
    ensures n <= |s|
    ensures forall i | 0 <= i < n :: IsDigit(s[i])
    ensures n < |s| ==> !IsDigit(s[n])
  {
    if s == [] || !IsDigit(s[0]) then 0 else 1 + DigitRun(s[1..])
  }

  /** Length of the integer part: a zero, or digits that do not start with one; 0 if there is none. */
  function IntLen(s: seq<byte>): (n: nat)
    ensures n <= |s|
  {
    if s != [] && s[0] == 0x30 then 1 else DigitRun(s)
  }

  function FracLen(s: seq<byte>): (n: Option<nat>)
    ensures n.Some? ==> n.value <= |s|
  {
    if s == [] || s[0] != 0x2E then Some(0)
    else if DigitRun(s[1..]) == 0 then None
    else Some(1 + DigitRun(s[1..]))
  }

  function ExpLen(s: seq<byte>): (n: Option<nat>)
    ensures n.Some? ==> n.value <= |s|
  {
    if s == [] || (s[0] != 0x65 && s[0] != 0x45) then Some(0)
    else
      var sign := if |s| >= 2 && (s[1] == 0x2B || s[1] == 0x2D) then 1 else 0;
      if DigitRun(s[1 + sign..]) == 0 then None else Some(1 + sign + DigitRun(s[1 + sign..]))
  }

  /** Length of the fraction and exponent that follow an integer part. */
  function TailLen(s: seq<byte>): (n: Option<nat>)
    ensures n.Some? ==> n.value <= |s|
  {
    var frac := FracLen(s);
    if frac.None? then None
    else
      var exp := ExpLen(s[frac.value..]);
      if exp.None? then None else Some(frac.value + exp.value)
  }

  function UnsignedLen(s: seq<byte>): (n: Option<nat>)
    ensures n.Some? ==> 1 <= n.value <= |s|
  {
    if IntLen(s) == 0 then None
    else
      var tail := TailLen(s[IntLen(s)..]);
      if tail.None? then None else Some(IntLen(s) + tail.value)
  }

  /** Length of the number at the head of `s`, `None` if there is none. */
  function NumberLen(s: seq<byte>): (n: Option<nat>)
    ensures n.Some? ==> 1 <= n.value <= |s|
  {
    if s != [] && s[0] == 0x2D then
      var n := UnsignedLen(s[1..]);
      if n.None? then None else Some(1 + n.value)
    else UnsignedLen(s)
  }

  // ----- values (sections 2 to 5) -----

  predicate IsSpace(b: byte) {
    b == 0x20 || b == 0x09 || b == 0x0A || b == 0x0D
  }

  function SkipSpace(s: seq<byte>): (r: seq<byte>)
    ensures |r| <= |s|
  {
    if s != [] && IsSpace(s[0]) then SkipSpace(s[1..]) else s
  }

  const TRUE: seq<byte> := [0x74, 0x72, 0x75, 0x65]
  const FALSE: seq<byte> := [0x66, 0x61, 0x6C, 0x73, 0x65]
  const NULL: seq<byte> := [0x6E, 0x75, 0x6C, 0x6C]

  function LiteralAt(s: seq<byte>): (l: Option<seq<byte>>)
    ensures l.Some? ==> l.value <= s && l.value != []
  {
    if TRUE <= s then Some(TRUE) else if FALSE <= s then Some(FALSE) else if NULL <= s then Some(NULL) else None
  }

  /** A value at the head of `s` (no space before it) and the text after it. */
  function ParseValue(s: seq<byte>): (r: Option<(Value, seq<byte>)>)
    ensures r.Some? ==> |r.value.1| < |s|
    decreases |s|, 0
  {
    if s == [] then None
    else if s[0] == OPEN_BRACE then
      var after := SkipSpace(s[1..]);
      if after != [] && after[0] == CLOSE_BRACE then Some((Obj([]), after[1..]))
      else
        var ms := ParseMembers(after);
        if ms.None? then None else Some((Obj(ms.value.0), ms.value.1))
    else if s[0] == OPEN_BRACKET then
      var after := SkipSpace(s[1..]);
      if after != [] && after[0] == CLOSE_BRACKET then Some((Arr([]), after[1..]))
      else
        var es := ParseElements(after);
        if es.None? then None else Some((Arr(es.value.0), es.value.1))
    else if s[0] == QUOTE then
      var str := ParseString(s[1..]);
      if str.None? then None else Some((Str(str.value.0), str.value.1))
    else if LiteralAt(s).Some? then Some((Literal(LiteralAt(s).value), s[|LiteralAt(s).value|..]))
    else if NumberLen(s).Some? then Some((Number(s[..NumberLen(s).value]), s[NumberLen(s).value..]))
    else None
  }

  /** One or more members and the closing brace; `s` starts at the first key. */
  function ParseMembers(s: seq<byte>): (r: Option<(seq<(seq<byte>, Value)>, seq<byte>)>)
    ensures r.Some? ==> |r.value.1| < |s|
    decreases |s|, 1
  {
    var m := ParseMember(s);
    if m.None? then None
    else
      var rest := SkipSpace(m.value.1);
      if rest == [] then None
      else if rest[0] == CLOSE_BRACE then Some(([m.value.0], rest[1..]))
      else if rest[0] != COMMA then None
      else
        var more := ParseMembers(SkipSpace(rest[1..]));
        if more.None? then None else Some(([m.value.0] + more.value.0, more.value.1))
  }

  function ParseMember(s: seq<byte>): (r: Option<((seq<byte>, Value), seq<byte>)>)
    ensures r.Some? ==> |r.value.1| < |s|
    decreases |s|, 0
  {
    if s == [] || s[0] != QUOTE then None
    else
      var key := ParseString(s[1..]);
      if key.None? then None
      else
        var rest := SkipSpace(key.value.1);
        if rest == [] || rest[0] != COLON then None
        else
          var v := ParseValue(SkipSpace(rest[1..]));
          if v.None? then None else Some(((key.value.0, v.value.0), v.value.1))
  }

  /** One or more elements and the closing bracket; `s` starts at the first element. */
  function ParseElements(s: seq<byte>): (r: Option<(seq<Value>, seq<byte>)>)
    ensures r.Some? ==> |r.value.1| < |s|
    decreases |s|, 1
  {
    var v := ParseValue(s);
    if v.None? then None
    else
      var rest := SkipSpace(v.value.1);
      if rest == [] then None
      else if rest[0] == CLOSE_BRACKET then Some(([v.value.0], rest[1..]))
      else if rest[0] != COMMA then None
      else
        var more := ParseElements(SkipSpace(rest[1..]));
        if more.None? then None else Some(([v.value.0] + more.value.0, more.value.1))
  }

  /** A whole text: one value with only space around it. */
  function ParseText(s: seq<byte>): Option<Value> {
    var v := ParseValue(SkipSpace(s));
    if v.Some? && SkipSpace(v.value.1) == [] then Some(v.value.0) else None
  }
}
