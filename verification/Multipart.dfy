/** The multipart answer to several ranges: what is written, and the length announced for it. */
module Multipart {
  import opened Bytes
  import opened HttpRange
  import Decimal

  const CRLF: seq<byte> := [0x0D, 0x0A]
  const DASHES: seq<byte> := [0x2D, 0x2D]

  /** "Content-Range: bytes " */
  const RANGE_FIELD: seq<byte> := Ascii("Content-Range: bytes ")
  /** "Content-Type: " */
  const TYPE_FIELD: seq<byte> := Ascii("Content-Type: ")

  function Number(n: int): seq<byte> {
    Ascii(Decimal.FormatInt(n))
  }

  /** The last position of a range, in 64 bits. */
  function Last(r: Range): int {
    Wrap(r.start + r.length - 1)
  }

  /** first-last/size (section 4.2 of RFC 7233). */
  function ContentRange(r: Range, size: int): seq<byte> {
    Number(r.start) + ([0x2D] + (Number(Last(r)) + ([0x2F] + Number(size))))
  }

  /** A part's header fields in sorted order, and the blank line. */
  function PartHeader(r: Range, ctype: seq<byte>, size: int): seq<byte> {
    RANGE_FIELD + (ContentRange(r, size) + (CRLF + (TYPE_FIELD + (ctype + (CRLF + CRLF)))))
  }

  /** What seeking to a range and copying its length gives: an error for a start before the content or a
      range that runs out of it, and nothing at all for a length that is not positive. */
  function Copied(content: seq<byte>, r: Range): Option<seq<byte>> {
    if r.start < 0 then None
    else if r.length <= 0 then Some([])
    else if r.start + r.length <= |content| then Some(content[r.start..r.start + r.length])
    else None
  }

  predicate AllCopied(ranges: seq<Range>, content: seq<byte>) {
    forall i | 0 <= i < |ranges| :: Copied(content, ranges[i]).Some?
  }

  // ----- the format (section 5.1.1 of RFC 2046) -----

  function DashBoundary(boundary: seq<byte>): seq<byte> {
    DASHES + (boundary + CRLF)
  }

  /** The body parts after the first, each behind a delimiter, and the closing one. */
  function MoreParts(boundary: seq<byte>, parts: seq<seq<byte>>): seq<byte>
    decreases |parts|
  {
    if parts == [] then CRLF + (DASHES + (boundary + (DASHES + CRLF)))
    else CRLF + (DashBoundary(boundary) + (parts[0] + MoreParts(boundary, parts[1..])))
  }

  function MultipartBody(boundary: seq<byte>, parts: seq<seq<byte>>): seq<byte> {
    if parts == [] then MoreParts(boundary, [])
    else DashBoundary(boundary) + (parts[0] + MoreParts(boundary, parts[1..]))
  }

  function PartHeaders(ranges: seq<Range>, ctype: seq<byte>, size: int): (parts: seq<seq<byte>>)
    ensures |parts| == |ranges|
  {
    seq(|ranges|, i requires 0 <= i < |ranges| => PartHeader(ranges[i], ctype, size))
  }

  function BodyParts(ranges: seq<Range>, ctype: seq<byte>, content: seq<byte>): (parts: seq<seq<byte>>)
    requires AllCopied(ranges, content)
    ensures |parts| == |ranges|
  {
    seq(|ranges|, i requires 0 <= i < |ranges| =>
      PartHeader(ranges[i], ctype, |content|) + Copied(content, ranges[i]).value)
  }

  // ----- the writer -----

  /** Writes parts to a buffer, or only counts what it would write. */
  class PartWriter {
    const boundary: seq<byte>
    const counting: bool
    var out: seq<byte>
    var count: nat
    var parts: nat

    constructor (boundary: seq<byte>, counting: bool)
      ensures this.boundary == boundary && this.counting == counting && out == [] && count == 0 && parts == 0
    {
      this.boundary, this.counting, out, count, parts := boundary, counting, [], 0, 0;
    }

    method Write(data: seq<byte>)
      modifies this`out, this`count
      ensures count == old(count) + |data|
      ensures out == if counting then old(out) else old(out) + data
    {
      if !counting {
        out := out + data;
      }
      count := count + |data|;
    }

    method CreatePart(r: Range, ctype: seq<byte>, size: int)
      modifies this
      ensures parts == old(parts) + 1
      ensures var head := (if old(parts) == 0 then [] else CRLF) + (DashBoundary(boundary) + PartHeader(r, ctype, size));
              && count == old(count) + |head|
              && out == if counting then old(out) else old(out) + head
    {
      var lead := if parts == 0 then [] else CRLF;
      Write(lead + (DashBoundary(boundary) + PartHeader(r, ctype, size)));
      parts := parts + 1;
    }

    method Close()
      modifies this`out, this`count
      ensures count == old(count) + |MoreParts(boundary, [])|
      ensures out == if counting then old(out) else old(out) + MoreParts(boundary, [])
    {
      Write(CRLF + (DASHES + (boundary + (DASHES + CRLF))));
    }
  }

  /** What is written for the parts so far. */
  function Written(boundary: seq<byte>, parts: seq<seq<byte>>): seq<byte> {
    if parts == [] then []
    else
      Written(boundary, parts[..|parts| - 1])
      + ((if |parts| == 1 then [] else CRLF) + (DashBoundary(boundary) + parts[|parts| - 1]))
  }

  /** Seeks to the range and copies its length into the current part. */
  method CopyRange(mw: PartWriter, content: seq<byte>, r: Range) returns (ok: bool)
    requires !mw.counting
    modifies mw`out, mw`count
    ensures ok <==> Copied(content, r).Some?
    ensures ok ==> mw.out == old(mw.out) + Copied(content, r).value
  {
    if r.start < 0 {
      return false;
    }
    if r.length > 0 {
      var from := if r.start <= |content| then r.start else |content|;
      var to := if r.start + r.length <= |content| then r.start + r.length else |content|;
      mw.Write(content[from..to]);
      return r.start + r.length <= |content|;
    }
    return true;
  }

  /** The output with one more part. */
  function WithPart(was: seq<byte>, k: nat, boundary: seq<byte>, r: Range, ctype: seq<byte>, content: seq<byte>): seq<byte>
    requires Copied(content, r).Some?
  {
    was + ((if k == 0 then [] else CRLF) + (DashBoundary(boundary) + PartHeader(r, ctype, |content|)))
      + Copied(content, r).value
  }

  method WritePart(mw: PartWriter, r: Range, ctype: seq<byte>, content: seq<byte>) returns (ok: bool)
    requires !mw.counting
    modifies mw
    ensures mw.parts == old(mw.parts) + 1 && (ok <==> Copied(content, r).Some?)
    ensures ok ==> mw.out == WithPart(old(mw.out), old(mw.parts), mw.boundary, r, ctype, content)
  {
    hide PartHeader, DashBoundary, Copied;
    mw.CreatePart(r, ctype, |content|);
    ok := CopyRange(mw, content, r);
  }

  /** The loop that writes the body of a response to several ranges; nothing on an error. */
  method WriteRanges(content: seq<byte>, ranges: seq<Range>, ctype: seq<byte>, boundary: seq<byte>)
    returns (body: Option<seq<byte>>)
    ensures body.Some? <==> AllCopied(ranges, content)
    ensures body.Some? ==> body.value == MultipartBody(boundary, BodyParts(ranges, ctype, content))
  {
    hide MoreParts, MultipartBody, BodyParts, Copied, WrittenFor, WithPart;
    var mw := new PartWriter(boundary, false);
    NothingWrittenFor(boundary, ranges, ctype, content);
    for k := 0 to |ranges|
      invariant !mw.counting && mw.boundary == boundary && mw.parts == k
      invariant forall i | 0 <= i < k :: Copied(content, ranges[i]).Some?
      invariant WrittenFor(boundary, ranges, ctype, content, k, mw.out)
    {
      ghost var was := mw.out;
      var ok := WritePart(mw, ranges[k], ctype, content);
      if !ok {
        return None;
      }
      OneMorePart(boundary, ranges, ctype, content, k, was);
    }
    AllWritten(boundary, ranges, ctype, content, mw.out);
    mw.Close();
    body := Some(mw.out);
  }

  /** The first k parts are written, if all can be. */
  ghost predicate WrittenFor(boundary: seq<byte>, ranges: seq<Range>, ctype: seq<byte>, content: seq<byte>, k: nat, out: seq<byte>)
  {
    AllCopied(ranges, content) && k <= |ranges| ==> out == Written(boundary, BodyParts(ranges, ctype, content)[..k])
  }

  lemma NothingWrittenFor(boundary: seq<byte>, ranges: seq<Range>, ctype: seq<byte>, content: seq<byte>)
    ensures WrittenFor(boundary, ranges, ctype, content, 0, [])
  {
    hide Copied, PartHeader;
    NothingWritten(boundary);
  }

  lemma OneMorePart(boundary: seq<byte>, ranges: seq<Range>, ctype: seq<byte>, content: seq<byte>, k: nat, was: seq<byte>)
    requires k < |ranges| && Copied(content, ranges[k]).Some? && WrittenFor(boundary, ranges, ctype, content, k, was)
    ensures WrittenFor(boundary, ranges, ctype, content, k + 1, WithPart(was, k, boundary, ranges[k], ctype, content))
  {
    hide PartHeader, DashBoundary, Written, BodyParts, Copied;
    if AllCopied(ranges, content) {
      RegroupPart(was, if k == 0 then [] else CRLF, DashBoundary(boundary), PartHeader(ranges[k], ctype, |content|),
                  Copied(content, ranges[k]).value);
      PartAt(ranges, ctype, content, k);
      WrittenMore(boundary, BodyParts(ranges, ctype, content), k);
    }
  }

  lemma AllWritten(boundary: seq<byte>, ranges: seq<Range>, ctype: seq<byte>, content: seq<byte>, out: seq<byte>)
    requires AllCopied(ranges, content) && WrittenFor(boundary, ranges, ctype, content, |ranges|, out)
    ensures out + MoreParts(boundary, []) == MultipartBody(boundary, BodyParts(ranges, ctype, content))
  {
    hide MultipartBody, Written, BodyParts, MoreParts, Copied;
    var parts := BodyParts(ranges, ctype, content);
    assert parts[..|ranges|] == parts;
    WrittenIsBody(boundary, parts);
  }

  lemma NothingWritten(boundary: seq<byte>)
    ensures Written(boundary, []) == []
  {
  }

  lemma PartAt(ranges: seq<Range>, ctype: seq<byte>, content: seq<byte>, k: nat)
    requires AllCopied(ranges, content) && k < |ranges|
    ensures BodyParts(ranges, ctype, content)[k] ==
            PartHeader(ranges[k], ctype, |content|) + Copied(content, ranges[k]).value
  {
    hide PartHeader;
  }

  lemma WrittenMore(boundary: seq<byte>, parts: seq<seq<byte>>, k: nat)
    requires k < |parts|
    ensures Written(boundary, parts[..k + 1]) ==
            Written(boundary, parts[..k]) + ((if k == 0 then [] else CRLF) + (DashBoundary(boundary) + parts[k]))
  {
    hide DashBoundary;
    assert parts[..k + 1][..k] == parts[..k];
  }

  lemma RegroupPart(was: seq<byte>, lead: seq<byte>, dash: seq<byte>, head: seq<byte>, slice: seq<byte>)
    ensures was + (lead + (dash + head)) + slice == was + (lead + (dash + (head + slice)))
  {
  }

  /** The predicted length: all part headers and delimiters, and the sum of the ranges' lengths, in 64 bits. */
  function Prediction(boundary: seq<byte>, ranges: seq<Range>, ctype: seq<byte>, size: int): int {
    Wrap(|MultipartBody(boundary, PartHeaders(ranges, ctype, size))| + Total(ranges))
  }

  /** Predicts the length by writing the part headers into a counter and adding the ranges' lengths. */
  method RangesMimeSize(ranges: seq<Range>, ctype: seq<byte>, contentSize: int, boundary: seq<byte>)
    returns (size: int)
    ensures size == Prediction(boundary, ranges, ctype, contentSize)
  {
    hide MoreParts, PartHeader, DashBoundary, MultipartBody, Written, Wrap;
    var mw := new PartWriter(boundary, true);
    NothingWritten(boundary);
    size := 0;
    ghost var heads := PartHeaders(ranges, ctype, contentSize);
    for k := 0 to |ranges|
      invariant mw.counting && mw.boundary == boundary && mw.parts == k
      invariant mw.count == |Written(boundary, heads[..k])| && size == SumRanges(ranges[..k])
    {
      mw.CreatePart(ranges[k], ctype, contentSize);
      size := Wrap(size + ranges[k].length);
      assert ranges[..k + 1][..k] == ranges[..k];
      WrittenMore(boundary, heads, k);
    }
    mw.Close();
    assert heads[..|ranges|] == heads && ranges[..|ranges|] == ranges;
    WrittenIsBody(boundary, heads);
    SumWraps(ranges);
    WrapAdd(Total(ranges), mw.count);
    size := Wrap(size + mw.count);
  }

  lemma WrittenIsBody(boundary: seq<byte>, parts: seq<seq<byte>>)
    ensures Written(boundary, parts) + MoreParts(boundary, []) == MultipartBody(boundary, parts)
  {
    WrittenThen(boundary, parts, []);
    assert parts + [] == parts;
  }

  lemma {:induction false} WrittenThen(boundary: seq<byte>, parts: seq<seq<byte>>, more: seq<seq<byte>>)
    ensures parts != [] ==> Written(boundary, parts) + MoreParts(boundary, more) == MultipartBody(boundary, parts + more)
    ensures parts == [] ==> Written(boundary, parts) + MoreParts(boundary, []) == MoreParts(boundary, [])
    decreases |parts|
  {
    hide DashBoundary;
    if parts == [] {
      assert [] + MoreParts(boundary, []) == MoreParts(boundary, []);
    } else {
      var init, last := parts[..|parts| - 1], parts[|parts| - 1];
      assert parts + more == init + ([last] + more) && ([last] + more)[1..] == more;
      if init == [] {
        assert (parts + more)[0] == last && (parts + more)[1..] == more;
        RegroupFirst(DashBoundary(boundary), last, MoreParts(boundary, more));
      } else {
        WrittenThen(boundary, init, [last] + more);
        RegroupNext(Written(boundary, init), CRLF, DashBoundary(boundary), last, MoreParts(boundary, more));
      }
    }
  }

  lemma RegroupFirst(dash: seq<byte>, part: seq<byte>, rest: seq<byte>)
    ensures [] + ([] + (dash + part)) + rest == dash + (part + rest)
  {
  }

  lemma RegroupNext(was: seq<byte>, lead: seq<byte>, dash: seq<byte>, part: seq<byte>, rest: seq<byte>)
    ensures was + (lead + (dash + part)) + rest == was + (lead + (dash + (part + rest)))
  {
  }

  // ----- the prediction holds for another boundary -----

  lemma {:induction false} SameLengthMore(b1: seq<byte>, b2: seq<byte>, parts: seq<seq<byte>>)
    requires |b1| == |b2|
    ensures |MoreParts(b1, parts)| == |MoreParts(b2, parts)|
    decreases |parts|
  {
    if parts != [] {
      SameLengthMore(b1, b2, parts[1..]);
    }
  }

  /** By how much the lengths that are negative lower the sum. */
  function Shortfall(ranges: seq<Range>): nat {
    if ranges == [] then 0
    else
      var r := ranges[|ranges| - 1];
      Shortfall(ranges[..|ranges| - 1]) + (if r.length < 0 then -r.length else 0)
  }

  predicate NoNegative(ranges: seq<Range>) {
    forall i | 0 <= i < |ranges| :: ranges[i].length >= 0
  }

  lemma {:induction false} ShortfallZero(ranges: seq<Range>)
    ensures Shortfall(ranges) == 0 <==> NoNegative(ranges)
  {
    if ranges != [] {
      ShortfallZero(ranges[..|ranges| - 1]);
      assert ranges == ranges[..|ranges| - 1] + [ranges[|ranges| - 1]];
    }
  }

  lemma CopiedLength(content: seq<byte>, r: Range)
    requires Copied(content, r).Some?
    ensures |Copied(content, r).value| == r.length + (if r.length < 0 then -r.length else 0)
  {
  }

  /** What is written exceeds the headers by the lengths and what negative ones took off. */
  lemma {:induction false} WrittenLength(boundary: seq<byte>, ranges: seq<Range>, ctype: seq<byte>, content: seq<byte>, k: nat)
    requires AllCopied(ranges, content) && k <= |ranges|
    ensures |Written(boundary, BodyParts(ranges, ctype, content)[..k])| ==
            |Written(boundary, PartHeaders(ranges, ctype, |content|)[..k])| + Total(ranges[..k]) + Shortfall(ranges[..k])
    decreases k
  {
    hide PartHeader, DashBoundary, Written, Copied;
    var parts, heads := BodyParts(ranges, ctype, content), PartHeaders(ranges, ctype, |content|);
    if k == 0 {
      assert parts[..0] == [] && heads[..0] == [] && ranges[..0] == [];
      NothingWritten(boundary);
    } else {
      WrittenLength(boundary, ranges, ctype, content, k - 1);
      WrittenMore(boundary, parts, k - 1);
      WrittenMore(boundary, heads, k - 1);
      CopiedLength(content, ranges[k - 1]);
      assert ranges[..k][..k - 1] == ranges[..k - 1];
    }
  }

  lemma BodyLength(boundary: seq<byte>, ranges: seq<Range>, ctype: seq<byte>, content: seq<byte>)
    requires AllCopied(ranges, content)
    ensures |MultipartBody(boundary, BodyParts(ranges, ctype, content))| ==
            |MultipartBody(boundary, PartHeaders(ranges, ctype, |content|))| + Total(ranges) + Shortfall(ranges)
  {
    hide MultipartBody, Written, BodyParts, PartHeaders;
    var parts, heads := BodyParts(ranges, ctype, content), PartHeaders(ranges, ctype, |content|);
    WrittenLength(boundary, ranges, ctype, content, |ranges|);
    assert parts[..|ranges|] == parts && heads[..|ranges|] == heads && ranges[..|ranges|] == ranges;
    WrittenIsBody(boundary, parts);
    WrittenIsBody(boundary, heads);
  }

  /** Predicted multipart length: for every list of ranges that can be written, the prediction made with one
      boundary is the length of the body written with any other of the same length, less what the negative
      lengths took off. */
  lemma PredictedLength(b1: seq<byte>, b2: seq<byte>, ranges: seq<Range>, ctype: seq<byte>, content: seq<byte>)
    requires |b1| == |b2| && AllCopied(ranges, content)
    ensures Prediction(b1, ranges, ctype, |content|) ==
            Wrap(|MultipartBody(b2, BodyParts(ranges, ctype, content))| - Shortfall(ranges))
  {
    hide Wrap, BodyParts, PartHeaders, MoreParts, DashBoundary;
    BodyLength(b2, ranges, ctype, content);
    SameLength(b1, b2, PartHeaders(ranges, ctype, |content|));
  }

  lemma SameLength(b1: seq<byte>, b2: seq<byte>, parts: seq<seq<byte>>)
    requires |b1| == |b2|
    ensures |MultipartBody(b1, parts)| == |MultipartBody(b2, parts)|
  {
    SameLengthMore(b1, b2, if parts == [] then [] else parts[1..]);
  }

  /** The prediction is exact if and only if the negative lengths cancel modulo 2 to the 64; short of that
      many, if and only if there is none. */
  lemma PredictionExact(b1: seq<byte>, b2: seq<byte>, ranges: seq<Range>, ctype: seq<byte>, content: seq<byte>)
    requires |b1| == |b2| && AllCopied(ranges, content)
    requires |MultipartBody(b2, BodyParts(ranges, ctype, content))| <= Decimal.MAX_INT64
    ensures var length := |MultipartBody(b2, BodyParts(ranges, ctype, content))|;
            && (Prediction(b1, ranges, ctype, |content|) == length <==> Shortfall(ranges) % 0x1_0000_0000_0000_0000 == 0)
            && (Shortfall(ranges) < 0x1_0000_0000_0000_0000 ==>
                  (Prediction(b1, ranges, ctype, |content|) == length <==> NoNegative(ranges)))
  {
    hide Wrap, BodyParts, MultipartBody, Shortfall, Prediction;
    PredictedLength(b1, b2, ranges, ctype, content);
    WrapIsSame(|MultipartBody(b2, BodyParts(ranges, ctype, content))|, Shortfall(ranges));
    ShortfallZero(ranges);
  }

  lemma WrapIsSame(n: nat, d: nat)
    requires n <= Decimal.MAX_INT64
    ensures Wrap(n - d) == n <==> d % 0x1_0000_0000_0000_0000 == 0
  {
    var q := d / 0x1_0000_0000_0000_0000;
    var rest := d % 0x1_0000_0000_0000_0000;
    assert n - d == (n - rest) - q * 0x1_0000_0000_0000_0000;
    WrapShift(n - rest, q);
  }

  /** The delimiters of section 5.1.1 of RFC 2046, spelt out. */
  lemma Delimiters(boundary: seq<byte>)
    ensures CRLF + DashBoundary(boundary) == Ascii("\r\n--") + (boundary + Ascii("\r\n"))
    ensures MoreParts(boundary, []) == Ascii("\r\n--") + (boundary + Ascii("--\r\n"))
  {
    assert Ascii("\r\n--") == CRLF + DASHES && Ascii("--\r\n") == DASHES + CRLF && Ascii("\r\n") == CRLF;
  }

  // ----- a reader that goes by the announced ranges -----

  function FindByte(s: seq<byte>, b: byte): (n: nat)
    ensures n <= |s|
  {
    if s == [] || s[0] == b then 0 else 1 + FindByte(s[1..], b)
  }

  /** The text of a number before the byte `end`, and what follows that byte. */
  function ReadNumber(s: seq<byte>, end: byte): Option<(int, seq<byte>)> {
    var i := FindByte(s, end);
    var n := Decimal.ParseInt(AsText(s[..i]));
    if i < |s| && n.Some? then Some((n.value, s[i + 1..])) else None
  }

  /** The text before an empty line, and what follows that. */
  function ReadField(s: seq<byte>): Option<(seq<byte>, seq<byte>)> {
    var i := FindByte(s, 0x0D);
    if CRLF + CRLF <= s[i..] then Some((s[..i], s[i + 4..])) else None
  }

  /** A part as it announces itself: where its data starts, of how much, of what type. */
  datatype Piece = Piece(first: int, size: int, ctype: seq<byte>, data: seq<byte>)

  /** One part: its range field says where it belongs and how many bytes follow its header. */
  function ReadPart(s: seq<byte>): Option<(Piece, seq<byte>)> {
    if !(RANGE_FIELD <= s) then None
    else
      var first := ReadNumber(s[|RANGE_FIELD|..], 0x2D);
      if first.None? then None
      else
        var last := ReadNumber(first.value.1, 0x2F);
        if last.None? then None
        else
          var size := ReadNumber(last.value.1, 0x0D);
          if size.None? || !([0x0A] + TYPE_FIELD <= size.value.1) then None
          else
            var field := ReadField(size.value.1[|TYPE_FIELD| + 1..]);
            var n := last.value.0 - first.value.0 + 1;
            if field.None? || n < 0 || n > |field.value.1| then None
            else Some((Piece(first.value.0, size.value.0, field.value.0, field.value.1[..n]), field.value.1[n..]))
  }

  /** The parts behind delimiters, up to the closing one. */
  function ReadMore(s: seq<byte>, boundary: seq<byte>): Option<seq<Piece>>
    decreases |s|
  {
    var close := CRLF + (DASHES + (boundary + (DASHES + CRLF)));
    var open := CRLF + DashBoundary(boundary);
    if close == s then Some([])
    else if !(open <= s) then None
    else
      var p := ReadPart(s[|open|..]);
      if p.None? || |p.value.1| >= |s| then None
      else
        var more := ReadMore(p.value.1, boundary);
        if more.None? then None else Some([p.value.0] + more.value)
  }

  function ReadBody(s: seq<byte>, boundary: seq<byte>): Option<seq<Piece>> {
    if !(DashBoundary(boundary) <= s) then None
    else
      var p := ReadPart(s[|DashBoundary(boundary)|..]);
      if p.None? then None
      else
        var more := ReadMore(p.value.1, boundary);
        if more.None? then None else Some([p.value.0] + more.value)
  }

  /** What a reader should see of the ranges. */
  function Pieces(ranges: seq<Range>, ctype: seq<byte>, content: seq<byte>): (parts: seq<Piece>)
    requires AllCopied(ranges, content)
    ensures |parts| == |ranges|
  {
    seq(|ranges|, i requires 0 <= i < |ranges| =>
      Piece(ranges[i].start, |content|, ctype, Copied(content, ranges[i]).value))
  }

  lemma {:induction false} FindByteAfter(pre: seq<byte>, b: byte, rest: seq<byte>)
    requires b !in pre && rest != [] && rest[0] == b
    ensures FindByte(pre + rest, b) == |pre|
    decreases |pre|
  {
    if pre == [] {
      assert pre + rest == rest;
    } else {
      assert (pre + rest)[1..] == pre[1..] + rest;
      FindByteAfter(pre[1..], b, rest);
    }
  }

  lemma NumberText(n: int)
    ensures AsText(Number(n)) == Decimal.FormatInt(n)
    ensures forall i | 0 <= i < |Number(n)| :: 0x30 <= Number(n)[i] <= 0x39 || (n < 0 && Number(n)[i] == 0x2D)
  {
    var t := Decimal.FormatNat(if n < 0 then -n else n);
    assert forall i | 0 <= i < |t| :: Decimal.IsDigit(t[i]);
    assert AsText(Number(n)) == Decimal.FormatInt(n);
  }

  lemma NumberRead(n: int, end: byte, rest: seq<byte>)
    requires Decimal.IsInt64(n) && ((end == 0x2D && n >= 0) || end == 0x2F || end == 0x0D)
    ensures ReadNumber(Number(n) + ([end] + rest), end) == Some((n, rest))
  {
    hide FindByte, Number, Decimal.ParseInt, Decimal.FormatInt;
    var s := Number(n) + ([end] + rest);
    NumberText(n);
    Decimal.ParseFormat(n);
    FindByteAfter(Number(n), end, [end] + rest);
    assert s[..|Number(n)|] == Number(n) && s[|Number(n)| + 1..] == rest;
  }

  lemma FieldRead(ctype: seq<byte>, rest: seq<byte>)
    requires 0x0D !in ctype
    ensures ReadField(ctype + (CRLF + CRLF + rest)) == Some((ctype, rest))
  {
    hide FindByte;
    var s := ctype + (CRLF + CRLF + rest);
    FindByteAfter(ctype, 0x0D, CRLF + CRLF + rest);
    assert s[..|ctype|] == ctype && s[|ctype|..] == CRLF + CRLF + rest && s[|ctype| + 4..] == rest;
  }

  lemma RegroupHeader(r: Range, ctype: seq<byte>, size: int, tail: seq<byte>)
    ensures PartHeader(r, ctype, size) + tail ==
      RANGE_FIELD + (Number(r.start) + ([0x2D] + (Number(Last(r)) + ([0x2F] +
        (Number(size) + ([0x0D] + (([0x0A] + TYPE_FIELD) + (ctype + (CRLF + CRLF + tail)))))))))
  {
    hide Number;
  }

  /** A part is read by its announced range, unless that range runs backwards. */
  lemma PartRead(r: Range, ctype: seq<byte>, content: seq<byte>, rest: seq<byte>)
    requires Shaped(r, |content|) && Copied(content, r).Some? && 0x0D !in ctype && |content| <= Decimal.MAX_INT64
    ensures ReadPart(PartHeader(r, ctype, |content|) + (Copied(content, r).value + rest)) ==
            if r.length >= 0 then Some((Piece(r.start, |content|, ctype, Copied(content, r).value), rest)) else None
  {
    hide PartHeader, Number, ReadNumber, ReadField, Copied, Last, Shaped;
    var tail := Copied(content, r).value + rest;
    var s6 := ctype + (CRLF + CRLF + tail);
    var s5 := ([0x0A] + TYPE_FIELD) + s6;
    var s4 := Number(|content|) + ([0x0D] + s5);
    var s3 := Number(Last(r)) + ([0x2F] + s4);
    var s2 := Number(r.start) + ([0x2D] + s3);
    RegroupHeader(r, ctype, |content|, tail);
    assert (RANGE_FIELD + s2)[|RANGE_FIELD|..] == s2;
    assert s5[|TYPE_FIELD| + 1..] == s6;
    ShapedNumbers(r, content);
    NumberRead(r.start, 0x2D, s3);
    NumberRead(Last(r), 0x2F, s4);
    NumberRead(|content|, 0x0D, s5);
    FieldRead(ctype, tail);
    if r.length >= 0 {
      assert tail[..r.length] == Copied(content, r).value && tail[r.length..] == rest;
    }
  }

  lemma ShapedNumbers(r: Range, content: seq<byte>)
    requires Shaped(r, |content|) && Copied(content, r).Some? && |content| <= Decimal.MAX_INT64
    ensures 0 <= r.start <= Decimal.MAX_INT64 && Decimal.IsInt64(Last(r)) && Last(r) - r.start + 1 == r.length
    ensures r.length >= 0 ==> |Copied(content, r).value| == r.length
  {
  }

  lemma RegroupMore(boundary: seq<byte>, head: seq<byte>, slice: seq<byte>, rest: seq<byte>)
    ensures CRLF + (DashBoundary(boundary) + (head + slice + rest)) == CRLF + DashBoundary(boundary) + (head + (slice + rest))
    ensures DashBoundary(boundary) + (head + slice + rest) == DashBoundary(boundary) + (head + (slice + rest))
    ensures (CRLF + DashBoundary(boundary) + (head + (slice + rest)))[|CRLF + DashBoundary(boundary)|..] == head + (slice + rest)
    ensures (DashBoundary(boundary) + (head + (slice + rest)))[|DashBoundary(boundary)|..] == head + (slice + rest)
  {
    hide DashBoundary;
  }

  /** A closing delimiter is no longer than any other. */
  lemma NotClosing(boundary: seq<byte>, rest: seq<byte>)
    requires rest != []
    ensures CRLF + DashBoundary(boundary) + rest != CRLF + (DASHES + (boundary + (DASHES + CRLF)))
  {
    var a := CRLF + DashBoundary(boundary) + rest;
    var b := CRLF + (DASHES + (boundary + (DASHES + CRLF)));
    assert a[4 + |boundary|] == 0x0D && b[4 + |boundary|] == 0x2D;
  }

  lemma NoNegativeCons(ranges: seq<Range>)
    requires ranges != []
    ensures NoNegative(ranges) <==> ranges[0].length >= 0 && NoNegative(ranges[1..])
  {
    assert ranges == [ranges[0]] + ranges[1..];
  }

  lemma {:induction false} MoreRead(boundary: seq<byte>, ranges: seq<Range>, ctype: seq<byte>, content: seq<byte>)
    requires AllShaped(ranges, |content|) && AllCopied(ranges, content)
    requires 0x0D !in ctype && |content| <= Decimal.MAX_INT64
    ensures ReadMore(MoreParts(boundary, BodyParts(ranges, ctype, content)), boundary) ==
            if NoNegative(ranges) then Some(Pieces(ranges, ctype, content)) else None
    decreases |ranges|
  {
    hide PartHeader, ReadPart, Copied, DashBoundary, Shaped, NoNegative;
    var parts := BodyParts(ranges, ctype, content);
    if ranges == [] {
      NoneNegative();
    } else {
      var r, rest := ranges[0], MoreParts(boundary, BodyParts(ranges[1..], ctype, content));
      var head, slice := PartHeader(r, ctype, |content|), Copied(content, r).value;
      assert parts[1..] == BodyParts(ranges[1..], ctype, content) && parts[0] == head + slice;
      RegroupMore(boundary, head, slice, rest);
      MoreRead(boundary, ranges[1..], ctype, content);
      NoNegativeCons(ranges);
      PartRead(r, ctype, content, rest);
      HeaderNotEmpty(r, ctype, |content|);
      NotClosing(boundary, head + (slice + rest));
      assert Pieces(ranges, ctype, content) == [Piece(r.start, |content|, ctype, slice)] + Pieces(ranges[1..], ctype, content);
    }
  }

  lemma NoneNegative()
    ensures NoNegative([])
  {
  }

  lemma HeaderNotEmpty(r: Range, ctype: seq<byte>, size: int)
    ensures PartHeader(r, ctype, size) != []
  {
  }

  /** Read back as they announce themselves, the parts of the written body are exactly the requested slices of
      the content in request order, each with its own start, the content's size and its type; a body with a negative length among its ranges cannot be read so. */
  lemma BodyReadBack(boundary: seq<byte>, ranges: seq<Range>, ctype: seq<byte>, content: seq<byte>)
    requires ranges != [] && AllShaped(ranges, |content|) && AllCopied(ranges, content)
    requires 0x0D !in ctype && |content| <= Decimal.MAX_INT64
    ensures ReadBody(MultipartBody(boundary, BodyParts(ranges, ctype, content)), boundary) ==
            if NoNegative(ranges) then Some(Pieces(ranges, ctype, content)) else None
  {
    hide PartHeader, ReadPart, Copied, DashBoundary, MoreParts, ReadMore, Shaped, NoNegative;
    var parts := BodyParts(ranges, ctype, content);
    var r, rest := ranges[0], MoreParts(boundary, BodyParts(ranges[1..], ctype, content));
    var head, slice := PartHeader(r, ctype, |content|), Copied(content, r).value;
    assert parts[1..] == BodyParts(ranges[1..], ctype, content) && parts[0] == head + slice;
    RegroupMore(boundary, head, slice, rest);
    MoreRead(boundary, ranges[1..], ctype, content);
    NoNegativeCons(ranges);
    PartRead(r, ctype, content, rest);
    assert Pieces(ranges, ctype, content) == [Piece(r.start, |content|, ctype, slice)] + Pieces(ranges[1..], ctype, content);
  }
}
