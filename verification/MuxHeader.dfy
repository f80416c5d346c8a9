/** The length-prefixed {Host, Port} header that opens every multiplexed stream. */
module MuxHeader {
  import opened Bytes
  import opened Json
  import opened Transport
  import Utf8
  import Decimal
  import JsonPrefix
  import JsonRoundTrip

  const HOST: seq<byte> := [0x48, 0x6F, 0x73, 0x74]
  const PORT: seq<byte> := [0x50, 0x6F, 0x72, 0x74]

  /** The largest header the proxy reads. */
  const MAX_HEADER: nat := 4096

  function StringLit(s: seq<byte>): seq<byte> {
    [QUOTE] + (EncodeString(s) + [QUOTE])
  }

  /** The encoded header object. */
  function Marshal(host: seq<byte>, port: int): seq<byte> {
    [OPEN_BRACE] + (StringLit(HOST) + ([COLON] + (StringLit(host) + ([COMMA] +
      (StringLit(PORT) + ([COLON] + (Ascii(Decimal.FormatInt(port)) + [CLOSE_BRACE])))))))
  }

  /** Field names match without regard to case; the long s folds to s. */
  function FoldKey(k: seq<byte>): seq<byte>
    decreases |k|
  {
    if k == [] then []
    else if |k| >= 2 && k[0] == 0xC5 && k[1] == 0xBF then [0x73] + FoldKey(k[2..])
    else [if 0x41 <= k[0] <= 0x5A then k[0] + 0x20 else k[0]] + FoldKey(k[1..])
  }

  datatype Header = Header(host: seq<byte>, port: int)

  /** Stores one member: a null changes nothing, a value of the wrong kind is an error. */
  function StoreMember(h: Header, key: seq<byte>, v: Value): Option<Header> {
    if FoldKey(key) == FoldKey(HOST) then
      match v
      case Str(s) => Some(h.(host := s))
      case Literal(name) => if name == NULL then Some(h) else None
      case _ => None
    else if FoldKey(key) == FoldKey(PORT) then
      match v
      case Number(text) =>
        var n := Decimal.ParseInt(AsText(text));
        if n.Some? then Some(h.(port := n.value)) else None
      case Literal(name) => if name == NULL then Some(h) else None
      case _ => None
    else Some(h)
  }

  function StoreMembers(h: Header, members: seq<(seq<byte>, Value)>): Option<Header>
    decreases |members|
  {
    if members == [] then Some(h)
    else
      var h' := StoreMember(h, members[0].0, members[0].1);
      if h'.None? then None else StoreMembers(h'.value, members[1..])
  }

  /** Decoding into the two fields; anything but an object or null is an error. */
  function Unmarshal(buf: seq<byte>): Option<Header> {
    match ParseText(buf)
    case Some(Obj(members)) => StoreMembers(Header([], 0), members)
    case Some(Literal(name)) => if name == NULL then Some(Header([], 0)) else None
    case _ => None
  }

  /** What the client writes: the length modulo 65536 in two bytes, then the object. */
  function Frame(host: seq<byte>, port: int): seq<byte> {
    ToBigEndian(|Marshal(host, port)| % 0x1_0000, 2) + Marshal(host, port)
  }

  /** What the proxy makes of a stream: the header and the bytes after it. */
  function HeaderOf(stream: seq<byte>): Option<(Header, seq<byte>)> {
    if |stream| < 2 then None
    else
      var n := FromBigEndian(stream[..2]);
      if n == 0 || n > MAX_HEADER || |stream| < 2 + n then None
      else
        var h := Unmarshal(stream[2..2 + n]);
        if h.None? then None else Some((h.value, stream[2 + n..]))
  }

  method WriteMuxHeader(c: Conn, host: seq<byte>, port: int) returns (ok: bool)
    modifies c`sent, c`broken
    ensures ok ==> c.sent == old(c.sent) + Frame(host, port)
    ensures old(c.sent) <= c.sent <= old(c.sent) + Frame(host, port)
  {
    hide Marshal, ToBigEndian;
    var hdr := Marshal(host, port);
    var frame := ToBigEndian(|hdr| % 0x1_0000, 2) + hdr;
    var n, err := c.Write(frame);
    assert frame == frame[..n] + frame[n..];
    ok := err.None?;
  }

  /** Reads exactly the header off the stream; a reliable transport always gets the right answer. */
  method ReadMuxHeader(c: Conn) returns (r: Option<Header>)
    modifies c`incoming
    ensures r.Some? ==> HeaderOf(old(c.incoming)) == Some((r.value, c.incoming))
    ensures c.reliable && r.None? ==> HeaderOf(old(c.incoming)).None?
  {
    var lb := new byte[2];
    ghost var start := c.incoming;
    var err := ReadFull(c, lb);
    if err.Some? {
      return None;
    }
    var n := FromBigEndian(lb[..]);
    if n == 0 || n > MAX_HEADER {
      return None;
    }
    var buf := new byte[n];
    err := ReadFull(c, buf);
    if err.Some? {
      return None;
    }
    assert start[2..][..n] == start[2..2 + n] && start[2..][n..] == start[2 + n..];
    r := Unmarshal(buf[..]);
  }

  // ----- the header is read back -----

  lemma LitRead(s: seq<byte>, tail: seq<byte>)
    ensures StringLit(s) + tail != [] && (StringLit(s) + tail)[0] == QUOTE
    ensures ParseString((StringLit(s) + tail)[1..]) == Some((Utf8.Sanitize(s), tail))
  {
    hide ParseString, EncodeString;
    assert (StringLit(s) + tail)[1..] == EncodeString(s) + ([QUOTE] + tail);
    JsonRoundTrip.ParseEncoded(s, tail);
  }

  lemma NoSpace(s: seq<byte>)
    requires s != [] && !IsSpace(s[0])
    ensures SkipSpace(s) == s
  {
  }

  lemma MemberRead(key: seq<byte>, value: seq<byte>, v: Value, tail: seq<byte>)
    requires value != [] && !IsSpace(value[0]) && ParseValue(value) == Some((v, tail))
    ensures ParseMember(StringLit(key) + ([COLON] + value)) == Some(((Utf8.Sanitize(key), v), tail))
  {
    hide ParseString, ParseValue, SkipSpace, StringLit, Utf8.Sanitize;
    LitRead(key, [COLON] + value);
    NoSpace([COLON] + value);
    NoSpace(value);
    assert ([COLON] + value)[1..] == value;
  }

  lemma StringValue(s: seq<byte>, tail: seq<byte>)
    ensures ParseValue(StringLit(s) + tail) == Some((Str(Utf8.Sanitize(s)), tail))
  {
    hide ParseString, StringLit, Utf8.Sanitize;
    LitRead(s, tail);
  }

  lemma NumberValue(text: seq<byte>, tail: seq<byte>)
    requires text != [] && (text[0] == 0x2D || Json.IsDigit(text[0])) && NumberLen(text + tail) == Some(|text|)
    ensures ParseValue(text + tail) == Some((Number(text), tail))
  {
    hide NumberLen;
    var value := text + tail;
    assert value[0] == text[0];
    assert value[..|text|] == text && value[|text|..] == tail;
  }

  lemma LastMember(s: seq<byte>, m: (seq<byte>, Value))
    requires ParseMember(s) == Some((m, [CLOSE_BRACE]))
    ensures ParseMembers(s) == Some(([m], []))
  {
    hide ParseMember, SkipSpace;
    NoSpace([CLOSE_BRACE]);
  }

  lemma FirstMember(s: seq<byte>, m: (seq<byte>, Value), second: seq<byte>, ms: seq<(seq<byte>, Value)>)
    requires second != [] && second[0] == QUOTE
    requires ParseMember(s) == Some((m, [COMMA] + second)) && ParseMembers(second) == Some((ms, []))
    ensures ParseMembers(s) == Some(([m] + ms, []))
  {
    hide ParseMember, SkipSpace;
    NoSpace([COMMA] + second);
    NoSpace(second);
    assert ([COMMA] + second)[1..] == second;
  }

  lemma ObjectRead(s: seq<byte>, ms: seq<(seq<byte>, Value)>)
    requires s != [] && s[0] == QUOTE && ParseMembers(s) == Some((ms, []))
    ensures ParseValue([OPEN_BRACE] + s) == Some((Obj(ms), []))
  {
    hide ParseMembers, SkipSpace;
    NoSpace(s);
    assert ([OPEN_BRACE] + s)[1..] == s;
  }

  lemma {:induction false} DigitRunOfText(t: string, tail: seq<byte>)
    requires Decimal.AllDigits(t) && tail != [] && !Json.IsDigit(tail[0])
    ensures DigitRun(Ascii(t) + tail) == |t|
    decreases |t|
  {
    var s := Ascii(t) + tail;
    if t != [] {
      assert Decimal.IsDigit(t[0]);
      assert s[1..] == Ascii(t[1..]) + tail;
      DigitRunOfText(t[1..], tail);
    }
  }

  lemma UnsignedText(n: nat)
    ensures UnsignedLen(Ascii(Decimal.FormatNat(n)) + [CLOSE_BRACE]) == Some(|Decimal.FormatNat(n)|)
  {
    hide DigitRun;
    var t := Decimal.FormatNat(n);
    var s := Ascii(t) + [CLOSE_BRACE];
    DigitRunOfText(t, [CLOSE_BRACE]);
    assert s[0] == t[0] as int && t[0] == Decimal.DigitChar(Decimal.Digits(n)[0]);
    assert s[0] == 0x30 ==> |t| == 1;
    assert IntLen(s) == |t|;
    assert s[|t|..] == [CLOSE_BRACE];
  }

  lemma PortText(port: int)
    ensures var text := Ascii(Decimal.FormatInt(port));
            && text != [] && (text[0] == 0x2D || Json.IsDigit(text[0]))
            && NumberLen(text + [CLOSE_BRACE]) == Some(|text|)
            && AsText(text) == Decimal.FormatInt(port)
  {
    hide UnsignedLen;
    var m: nat := if port < 0 then -port else port;
    var t := Decimal.FormatNat(m);
    UnsignedText(m);
    assert Decimal.IsDigit(t[0]);
    var text := Ascii(Decimal.FormatInt(port));
    if port < 0 {
      assert text == [0x2D] + Ascii(t);
      assert (text + [CLOSE_BRACE])[1..] == Ascii(t) + [CLOSE_BRACE];
    }
    assert forall i | 0 <= i < |t| :: Decimal.IsDigit(t[i]);
    assert AsText(text) == Decimal.FormatInt(port);
  }

  lemma {:induction false} AsciiUnchanged(s: seq<byte>)
    requires forall i | 0 <= i < |s| :: s[i] < 0x80
    ensures Utf8.Sanitize(s) == s
    decreases |s|
  {
    if s != [] {
      AsciiUnchanged(s[1..]);
      assert s == s[..1] + s[1..];
    }
  }

  /** Parsing the encoded object gives its two members and leaves nothing. */
  lemma ParseMarshalled(host: seq<byte>, port: int)
    ensures ParseValue(Marshal(host, port)) ==
      Some((Obj([(HOST, Str(Utf8.Sanitize(host))), (PORT, Number(Ascii(Decimal.FormatInt(port))))]), []))
  {
    hide ParseMember, ParseMembers, ParseValue, StringLit, Utf8.Sanitize, Ascii, NumberLen;
    var text := Ascii(Decimal.FormatInt(port));
    var last := text + [CLOSE_BRACE];
    var second := StringLit(PORT) + ([COLON] + last);
    var value := StringLit(host) + ([COMMA] + second);
    var first := StringLit(HOST) + ([COLON] + value);
    AsciiUnchanged(HOST);
    AsciiUnchanged(PORT);
    PortText(port);
    LitRead(HOST, [COLON] + value);
    LitRead(PORT, [COLON] + last);
    LitRead(host, [COMMA] + second);
    NumberValue(text, [CLOSE_BRACE]);
    MemberRead(PORT, last, Number(text), [CLOSE_BRACE]);
    LastMember(second, (PORT, Number(text)));
    StringValue(host, [COMMA] + second);
    MemberRead(HOST, value, Str(Utf8.Sanitize(host)), [COMMA] + second);
    FirstMember(first, (HOST, Str(Utf8.Sanitize(host))), second, [(PORT, Number(text))]);
    var members := [(HOST, Str(Utf8.Sanitize(host))), (PORT, Number(text))];
    assert [(HOST, Str(Utf8.Sanitize(host)))] + [(PORT, Number(text))] == members;
    ObjectRead(first, members);
  }

  lemma KeysDiffer()
    ensures FoldKey(PORT) != FoldKey(HOST)
  {
    assert FoldKey(PORT)[0] == 0x70 && FoldKey(HOST)[0] == 0x68;
  }

  lemma StoredMarshalled(host: seq<byte>, port: int)
    requires Decimal.IsInt64(port)
    ensures StoreMembers(Header([], 0), [(HOST, Str(host)), (PORT, Number(Ascii(Decimal.FormatInt(port))))])
         == Some(Header(host, port))
  {
    hide FoldKey, Ascii, AsText;
    var text := Ascii(Decimal.FormatInt(port));
    PortText(port);
    Decimal.ParseFormat(port);
    KeysDiffer();
    var second: seq<(seq<byte>, Value)> := [(PORT, Number(text))];
    assert StoreMembers(Header(host, 0), second) == Some(Header(host, port)) by {
      assert second[1..] == [];
    }
    var members: seq<(seq<byte>, Value)> := [(HOST, Str(host)), (PORT, Number(text))];
    assert members[1..] == second;
  }

  lemma MarshalledHead(host: seq<byte>, port: int)
    ensures Marshal(host, port) != [] && Marshal(host, port)[0] == OPEN_BRACE
  {
  }

  lemma SkipNothing()
    ensures SkipSpace([]) == []
  {
  }

  /** Decoding inverts encoding, up to the replacement of malformed bytes in the host. */
  lemma UnmarshalMarshal(host: seq<byte>, port: int)
    requires Decimal.IsInt64(port)
    ensures Unmarshal(Marshal(host, port)) == Some(Header(Utf8.Sanitize(host), port))
  {
    hide Marshal, ParseValue, StoreMembers, SkipSpace, Utf8.Sanitize, Ascii;
    ParseMarshalled(host, port);
    StoredMarshalled(Utf8.Sanitize(host), port);
    MarshalledHead(host, port);
    NoSpace(Marshal(host, port));
    assert SkipSpace([]) == [] by { SkipNothing(); }
  }

  /** A strict prefix of the encoded object is rejected. */
  lemma PrefixRejected(host: seq<byte>, port: int, q: seq<byte>)
    requires q < Marshal(host, port)
    ensures Unmarshal(q).None?
  {
    hide Marshal, ParseText, ParseValue, Utf8.Sanitize, Ascii;
    ParseMarshalled(host, port);
    MarshalledHead(host, port);
    JsonPrefix.ObjectsArePrefixFree(Marshal(host, port), q);
  }

  lemma LengthRead(n: nat)
    requires n < 0x1_0000
    ensures FromBigEndian(ToBigEndian(n, 2)) == n
  {
    assert Pow256(2) == 0x1_0000;
    BigEndianRoundTrip(n, 2);
  }

  /** No misread, whatever the header's length and whatever follows it: the proxy recovers the
      pair and exactly the payload when the object is at most 4096 bytes, and rejects otherwise,
      also where the 16-bit length wraps. */
  lemma FramedHeader(host: seq<byte>, port: int, payload: seq<byte>)
    requires Decimal.IsInt64(port)
    ensures HeaderOf(Frame(host, port) + payload) ==
      if |Marshal(host, port)| <= MAX_HEADER then Some((Header(Utf8.Sanitize(host), port), payload)) else None
  {
    hide Marshal, Unmarshal;
    var hdr := Marshal(host, port);
    var n := |hdr| % 0x1_0000;
    var stream := Frame(host, port) + payload;
    LengthRead(n);
    assert stream[..2] == ToBigEndian(n, 2);
    assert stream[2..] == hdr + payload;
    if 0 < n <= MAX_HEADER {
      assert stream[2..2 + n] == hdr[..n];
      if |hdr| == n {
        UnmarshalMarshal(host, port);
        assert hdr[..n] == hdr && stream[2 + n..] == payload;
      } else {
        PrefixRejected(host, port, hdr[..n]);
      }
    } else {
      MarshalledHead(host, port);
    }
  }

  /** The host comes back as written exactly when it is well-formed UTF-8. */
  lemma HostRecovered(host: seq<byte>, port: int, payload: seq<byte>)
    requires Decimal.IsInt64(port) && |Marshal(host, port)| <= MAX_HEADER
    ensures HeaderOf(Frame(host, port) + payload) == Some((Header(host, port), payload)) <==> Utf8.Valid(host)
  {
    hide HeaderOf, Frame, Marshal;
    FramedHeader(host, port, payload);
    Utf8.SanitizeKeepsExactlyValid(host);
  }

  // ----- the bytes themselves -----

  /** Text that needs no escaping, as host names do not. */
  predicate Plain(s: seq<byte>) {
    forall i | 0 <= i < |s| :: Safe(s[i])
  }

  lemma {:induction false} PlainEncoded(s: seq<byte>)
    requires Plain(s)
    ensures EncodeString(s) == s
    decreases |s|
  {
    if s != [] {
      PlainToken(s);
      PlainEncoded(s[1..]);
      assert s == [s[0]] + s[1..];
    }
  }

  lemma PlainToken(s: seq<byte>)
    requires s != [] && Safe(s[0])
    ensures Token(s) == [s[0]] && Utf8.Advance(s) == 1
  {
  }

  /** For a plain host name the object is literally {"Host":"name","Port":number}. */
  lemma PlainHeader(host: seq<byte>, port: int)
    requires Plain(host)
    ensures Marshal(host, port) ==
      Ascii("{\"Host\":\"") + (host + (Ascii("\",\"Port\":") + (Ascii(Decimal.FormatInt(port)) + Ascii("}"))))
  {
    hide EncodeString;
    PlainEncoded(host);
    PlainEncoded(HOST);
    PlainEncoded(PORT);
    var number := Ascii(Decimal.FormatInt(port));
    assert Ascii("{\"Host\":\"") == [OPEN_BRACE] + ([QUOTE] + (HOST + [QUOTE])) + [COLON] + [QUOTE];
    assert Ascii("\",\"Port\":") == [QUOTE] + [COMMA] + ([QUOTE] + (PORT + [QUOTE])) + [COLON];
    assert Ascii("}") == [CLOSE_BRACE];
    RegroupHeader(host, number);
  }

  lemma RegroupHeader(host: seq<byte>, number: seq<byte>)
    ensures [OPEN_BRACE] + ([QUOTE] + (HOST + [QUOTE]) + ([COLON] + ([QUOTE] + (host + [QUOTE]) + ([COMMA] +
              ([QUOTE] + (PORT + [QUOTE]) + ([COLON] + (number + [CLOSE_BRACE])))))))
            == ([OPEN_BRACE] + ([QUOTE] + (HOST + [QUOTE])) + [COLON] + [QUOTE]) +
               (host + (([QUOTE] + [COMMA] + ([QUOTE] + (PORT + [QUOTE])) + [COLON]) + (number + [CLOSE_BRACE])))
  {
  }

  /** The proxy takes the field names in any case, but for nothing else. */
  lemma NamesInAnyCase()
    ensures FoldKey(Ascii("host")) == FoldKey(Ascii("HOST")) == FoldKey(HOST) == Ascii("host")
    ensures FoldKey(Ascii("port")) == FoldKey(Ascii("PORT")) == FoldKey(PORT) == Ascii("port")
  {
    FoldFour(Ascii("host"));
    FoldFour(Ascii("HOST"));
    FoldFour(HOST);
    FoldFour(Ascii("port"));
    FoldFour(Ascii("PORT"));
    FoldFour(PORT);
  }

  function Lower(b: byte): byte {
    if 0x41 <= b <= 0x5A then b + 0x20 else b
  }

  lemma FoldFour(k: seq<byte>)
    requires |k| == 4 && forall i | 0 <= i < 4 :: k[i] < 0x80
    ensures FoldKey(k) == [Lower(k[0]), Lower(k[1]), Lower(k[2]), Lower(k[3])]
  {
    assert k[1..][1..] == k[2..] && k[2..][1..] == k[3..] && k[3..][1..] == [];
    assert FoldKey(k[3..]) == [Lower(k[3])] + FoldKey([]);
    assert FoldKey(k[2..]) == [Lower(k[2])] + FoldKey(k[3..]);
    assert FoldKey(k[1..]) == [Lower(k[1])] + FoldKey(k[2..]);
  }

  /** Two bytes of length, the high one first, and the object. */
  lemma FrameLayout(host: seq<byte>, port: int)
    ensures var f := Frame(host, port);
            && |f| == 2 + |Marshal(host, port)| && f[2..] == Marshal(host, port)
            && (f[0] as int) * 256 + f[1] == |Marshal(host, port)| % 0x1_0000
  {
    hide Marshal;
    var f, n := Frame(host, port), |Marshal(host, port)| % 0x1_0000;
    LengthRead(n);
    assert f[..2] == ToBigEndian(n, 2);
    TwoBytes(f[0], f[1]);
    assert f[..2] == [f[0], f[1]];
  }

  lemma TwoBytes(a: byte, b: byte)
    ensures FromBigEndian([a, b]) == (a as int) * 256 + b
  {
    assert [a, b][..1] == [a] && [a][..0] == [];
    assert FromBigEndian([a]) == FromBigEndian([]) * 256 + a;
  }
}
