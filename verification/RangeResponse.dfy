/** The answer to a request with a Range field: what length is announced, and what body is sent. */
module RangeResponse {
  import opened Bytes
  import opened Text
  import opened Decimal
  import opened HttpRange
  import opened Multipart

  /** `Unsatisfiable` is the answer 416; `Panicked` the panic on a body that cannot be read. */
  datatype Response =
    | Unsatisfiable
    | Sent(status: int, announced: int, body: seq<byte>)
    | Panicked

  /** The rest of the content from a position on. */
  function From(content: seq<byte>, start: nat): seq<byte> {
    if start <= |content| then content[start..] else []
  }

  /** What is sent for ranges that were accepted and not ignored. The body of a single range is read to the
      end of the content; the prediction and the writer draw a boundary each. */
  function Answer(ranges: seq<Range>, content: seq<byte>, ctype: seq<byte>, b1: seq<byte>, b2: seq<byte>): Response {
    if ranges == [] then Sent(200, |content|, content)
    else if |ranges| == 1 then
      if ranges[0].start < 0 then Unsatisfiable
      else Sent(206, ranges[0].length, From(content, ranges[0].start))
    else if AllCopied(ranges, content) then
      Sent(206, Prediction(b1, ranges, ctype, |content|), MultipartBody(b2, BodyParts(ranges, ctype, content)))
    else Panicked
  }

  /** The ranges honoured for a header, if it is not refused. */
  function Honours(header: string, size: int): Option<seq<Range>> {
    var parsed := Parse(header, size);
    if parsed.Ranges? then Some(Served(parsed.ranges, size)) else None
  }

  function Respond(header: string, content: seq<byte>, ctype: seq<byte>, b1: seq<byte>, b2: seq<byte>): Response {
    match Honours(header, |content|)
    case None => Unsatisfiable
    case Some(ranges) => Answer(ranges, content, ctype, b1, b2)
  }

  method ServeContent(header: string, content: seq<byte>, ctype: seq<byte>, b1: seq<byte>, b2: seq<byte>)
    returns (r: Response)
    requires |content| <= MAX_INT64
    ensures r == Respond(header, content, ctype, b1, b2)
  {
    hide Parse, SumRanges, MultipartBody, BodyParts, Prediction, AllCopied;
    var size := |content|;
    var sendSize, code := size, 200;
    var parsed := ParseRange(header, size);
    if !parsed.Ranges? {
      return Unsatisfiable;
    }
    var ranges := parsed.ranges;
    var sum := SumRangesSize(ranges);
    if sum > size {
      ranges := [];
    }
    var sendContent := content;
    if |ranges| == 1 {
      var ra := ranges[0];
      if ra.start < 0 {
        return Unsatisfiable;
      }
      sendContent := if ra.start <= size then content[ra.start..] else [];
      sendSize, code := ra.length, 206;
    } else if |ranges| > 1 {
      sendSize := RangesMimeSize(ranges, ctype, size, b1);
      code := 206;
      var body := WriteRanges(content, ranges, ctype, b2);
      if body.None? {
        return Panicked;
      }
      sendContent := body.value;
    }
    return Sent(code, sendSize, sendContent);
  }

  // ----- signed suffixes -----

  /** Some element of the list is a suffix with a sign of its own. */
  predicate AnySigned(header: string) {
    PREFIX <= header &&
    var texts := Split(header[|PREFIX|..], ',');
    exists i | 0 <= i < |texts| :: NegativeSuffix(texts[i])
  }

  /** The honoured ranges have the shapes parsing gives, and a negative length only from a signed suffix. */
  lemma HonoursShaped(header: string, size: int)
    requires 0 <= size <= MAX_INT64 && Honours(header, size).Some?
    ensures var ranges := Honours(header, size).value;
            AllShaped(ranges, size) && (ranges != [] ==> (NoNegative(ranges) <==> !AnySigned(header)))
  {
    hide Parse, Shaped, SumRanges, NegativeSuffix, Within, Split;
    ParseShaped(header, size);
    var ranges := Parse(header, size).ranges;
    if header == "" {
      assert ranges == [] by { NothingAsked(size); }
    } else {
      ParsePrefix(header, size);
      WithinUnlessSigned(header, size);
      ShapedNegative(ranges, size);
    }
  }

  lemma NothingAsked(size: int)
    ensures Parse("", size) == Ranges([])
  {
  }

  lemma ParsePrefix(header: string, size: int)
    requires Parse(header, size).Ranges? && header != ""
    ensures PREFIX <= header
  {
  }

  lemma ShapedNegative(ranges: seq<Range>, size: int)
    requires AllShaped(ranges, size)
    ensures AllWithin(ranges, size) <==> NoNegative(ranges)
  {
    forall i | 0 <= i < |ranges| ensures Within(ranges[i], size) <==> ranges[i].length >= 0 {
      assert Shaped(ranges[i], size);
    }
  }

  // ----- one range -----

  /** For every header that leaves one range, signed or not: the body has the announced length, and is the
      range, if and only if no suffix is signed and the range reaches the end. */
  lemma SingleBodyExact(header: string, content: seq<byte>, ctype: seq<byte>, b1: seq<byte>, b2: seq<byte>)
    requires |content| <= MAX_INT64 && Honours(header, |content|).Some? && |Honours(header, |content|).value| == 1
    ensures var r, out := Honours(header, |content|).value[0], Respond(header, content, ctype, b1, b2);
            if r.start < 0 then out == Unsatisfiable
            else
              && out.Sent? && out.status == 206
              && (|out.body| == out.announced <==> !AnySigned(header) && r.start + r.length == |content|)
              && (Copied(content, r) == Some(out.body) <==> r.start + r.length == |content|)
  {
    hide Honours, AnySigned, Prediction, MultipartBody, Shaped, From, Copied, NoNegative;
    HonoursShaped(header, |content|);
    var r := Honours(header, |content|).value[0];
    assert Honours(header, |content|).value == [r];
    assert AllShaped([r], |content|) && [r][0] == r;
    OneNegative(r);
    if r.start >= 0 {
      TailExact(r, content);
    }
  }

  lemma OneNegative(r: Range)
    ensures NoNegative([r]) <==> r.length >= 0
  {
    NoNegativeCons([r]);
    assert [r][1..] == [];
  }

  /** The rest of the content and the range start together; they are the same if they end together. */
  lemma TailExact(r: Range, content: seq<byte>)
    requires Shaped(r, |content|) && r.start >= 0
    ensures |From(content, r.start)| == r.length <==> r.length >= 0 && r.start + r.length == |content|
    ensures Copied(content, r) == Some(From(content, r.start)) <==> r.start + r.length == |content|
  {
    if Within(r, |content|) {
      assert |From(content, r.start)| == |content| - r.start;
      assert |Copied(content, r).value| == r.length;
      assert r.start + r.length == |content| ==> content[r.start..r.start + r.length] == content[r.start..];
    }
  }

  /** Whether a spec asks for everything up to the end of the content. */
  predicate ReachesEnd(spec: Spec, size: int) {
    !spec.FromTo? || NumberOf(spec.last) >= size - 1
  }

  lemma FirstRequested(spec: Spec, size: int)
    requires spec.FromTo? && !StartsBeyond(spec, size) && !Backwards(spec, size)
    ensures Requested(spec, size, NumberOf(spec.first))
  {
  }

  lemma CoveredToEnd(r: Range, spec: Spec, size: int)
    requires 0 <= size && Covers(r, spec, size) && !StartsBeyond(spec, size) && !Backwards(spec, size)
    ensures r.start + r.length == size <==> ReachesEnd(spec, size)
  {
    hide NumberOf;
    if r.length == 0 {
      if spec.FromTo? {
        FirstRequested(spec, size);
      }
    } else {
      assert Requested(spec, size, r.start);
      assert Requested(spec, size, size - 1) <==> r.start + r.length == size;
    }
  }

  /** In the words of the grammar: with one spec that starts within the content, the body has the announced
      length if and only if the spec is open, a suffix, or ends no earlier than the content. */
  lemma SingleSpecExact(es: seq<Element>, spec: Spec, content: seq<byte>, ctype: seq<byte>, b1: seq<byte>, b2: seq<byte>)
    requires |content| <= MAX_INT64 && es != [] && !AnyBackwards(es, |content|) && Kept(es, |content|) == [spec]
    ensures var out := Respond(HeaderText(es), content, ctype, b1, b2);
            && out.Sent? && out.status == 206
            && (|out.body| == out.announced <==> ReachesEnd(spec, |content|))
  {
    hide Parse, HeaderText, Kept, Covers, AnyBackwards, ReachesEnd;
    var size := |content|;
    ParseMeetsMeaning(es, size);
    var ranges := Parse(HeaderText(es), size).ranges;
    var r := ranges[0];
    assert Covers(r, spec, size);
    assert ranges == [r];
    CoversWithin(r, spec, size);
    SumOfOne(r, size);
    KeptIsFine(es, size);
    assert Kept(es, size)[0] == spec;
    CoveredToEnd(r, spec, size);
  }

  lemma CoversWithin(r: Range, spec: Spec, size: int)
    requires Covers(r, spec, size)
    ensures Within(r, size)
  {
  }

  lemma SumOfOne(r: Range, size: int)
    requires Within(r, size) && 0 <= size <= MAX_INT64
    ensures Served([r], size) == [r]
  {
    assert [r][..0] == [];
    assert SumRanges([r]) == Wrap(SumRanges([]) + r.length);
  }

  lemma {:induction false} KeptIsFine(es: seq<Element>, size: int)
    requires !AnyBackwards(es, size)
    ensures forall i | 0 <= i < |Kept(es, size)| ::
              !StartsBeyond(Kept(es, size)[i], size) && !Backwards(Kept(es, size)[i], size)
    decreases |es|
  {
    hide StartsBeyond, Backwards;
    if es != [] {
      forall i | 0 <= i < |es[1..]| ensures !(es[1..][i].spec.Some? && Backwards(es[1..][i].spec.value, size)) {
        assert es[1..][i] == es[i + 1];
      }
      KeptIsFine(es[1..], size);
      if es[0].spec.Some? {
        assert !Backwards(es[0].spec.value, size);
      }
    }
  }

  /** The first byte alone is announced as one byte and sent as the whole content. */
  lemma FirstByteSendsAll(content: seq<byte>, ctype: seq<byte>, b1: seq<byte>, b2: seq<byte>)
    requires 2 <= |content| <= MAX_INT64
    ensures Respond("bytes=0-0", content, ctype, b1, b2) == Sent(206, 1, content)
  {
    hide PartOf, Collect, Split, Parse, SumRanges;
    FirstByte(|content|);
    SumOfOne(Range(0, 1), |content|);
    assert content[0..] == content;
  }

  lemma FirstByte(size: int)
    requires 1 <= size <= MAX_INT64
    ensures PartOf("0-0", size) == Honoured(Range(0, 1))
    ensures Parse("bytes=0-0", size) == Ranges([Range(0, 1)])
  {
    hide TrimSpace, Find, Split, Collect, ParseInt, PartOf;
    var s := "bytes=0-0";
    assert s == PREFIX + "0-0";
    assert s[|PREFIX|..] == "0-0";
    SplitWhole("0-0", ',');
    ZeroPart(size);
    CollectOne(Range(0, 1));
    assert PartsOf(["0-0"], size) == [Honoured(Range(0, 1))];
  }

  lemma ZeroPart(size: int)
    requires 1 <= size <= MAX_INT64
    ensures PartOf("0-0", size) == Honoured(Range(0, 1))
  {
    hide Find, ParseInt, TrimSpace;
    assert "0" + "-" + "0" == "0-0";
    SplitAtDash("0", "0");
    TightTrimmed("0-0");
    Zero();
  }

  lemma Zero()
    ensures ParseInt("0") == Some(0)
  {
    assert DigitsOf("0") == [0];
    assert Value([0]) == 0;
  }

  // ----- several ranges -----

  /** For every header that leaves several ranges, the announced length is the body's, less what signed
      suffixes took off, in 64 bits. They are equal if and only if that is a multiple of 2 to the 64; short of
      so much, if and only if no suffix is signed. No body comes of a range with a negative start. */
  lemma SeveralBodiesExact(header: string, content: seq<byte>, ctype: seq<byte>, b1: seq<byte>, b2: seq<byte>)
    requires |content| <= MAX_INT64 && |b1| == |b2|
    requires Honours(header, |content|).Some? && |Honours(header, |content|).value| > 1
    ensures var ranges, out := Honours(header, |content|).value, Respond(header, content, ctype, b1, b2);
            && (out == Panicked <==> exists i | 0 <= i < |ranges| :: ranges[i].start < 0)
            && (out != Panicked ==>
                  && out.Sent? && out.status == 206
                  && out.announced == Wrap(|out.body| - Shortfall(ranges))
                  && (|out.body| <= MAX_INT64 ==>
                        && (out.announced == |out.body| <==> Shortfall(ranges) % 0x1_0000_0000_0000_0000 == 0)
                        && (Shortfall(ranges) < 0x1_0000_0000_0000_0000 ==>
                              (out.announced == |out.body| <==> !AnySigned(header)))))
  {
    hide Honours, AnySigned, Prediction, MultipartBody, Shortfall, BodyParts, Wrap, NoNegative;
    HonoursShaped(header, |content|);
    var ranges := Honours(header, |content|).value;
    ShapedCopied(ranges, content);
    if AllCopied(ranges, content) {
      PredictedLength(b1, b2, ranges, ctype, content);
      if |MultipartBody(b2, BodyParts(ranges, ctype, content))| <= MAX_INT64 {
        PredictionExact(b1, b2, ranges, ctype, content);
      }
    }
  }

  lemma ShapedCopied(ranges: seq<Range>, content: seq<byte>)
    requires AllShaped(ranges, |content|)
    ensures AllCopied(ranges, content) <==> !exists i | 0 <= i < |ranges| :: ranges[i].start < 0
  {
    forall i | 0 <= i < |ranges| ensures Copied(content, ranges[i]).None? <==> ranges[i].start < 0 {
      assert Shaped(ranges[i], |content|);
    }
  }

  /** This header is announced five bytes short. */
  lemma SignedSuffixFiveShort(content: seq<byte>, ctype: seq<byte>, b1: seq<byte>, b2: seq<byte>)
    requires 1 <= |content| <= MAX_INT64 - 5 && |b1| == |b2|
    ensures var ranges := [Range(|content| + 5, -5), Range(0, 1)];
            var out := Respond("bytes=--5,0-0", content, ctype, b1, b2);
            && Honours("bytes=--5,0-0", |content|) == Some(ranges)
            && out.Sent? && (|out.body| <= MAX_INT64 ==> out.announced == |out.body| - 5)
  {
    hide Parse, SumRanges, Prediction, MultipartBody, BodyParts, Shortfall, Wrap, AnySigned;
    var header := "bytes=--5,0-0";
    var a, b := Range(|content| + 5, -5), Range(0, 1);
    SignedPair(|content|);
    SumOfPair(a, b);
    assert Honours(header, |content|) == Some([a, b]);
    SeveralBodiesExact(header, content, ctype, b1, b2);
    var out := Respond(header, content, ctype, b1, b2);
    assert forall i | 0 <= i < 2 :: [a, b][i].start >= 0;
    if |out.body| <= MAX_INT64 {
      WrapSmall(|out.body| - 5);
    }
  }

  lemma WrapSmall(n: int)
    requires IsInt64(n)
    ensures Wrap(n) == n
  {
  }

  lemma SumOfPair(a: Range, b: Range)
    requires a.length == -5 && b.length == 1
    ensures SumRanges([a, b]) == -4 && Shortfall([a, b]) == 5
  {
    assert [a, b][..1] == [a] && [a][..0] == [];
    assert SumRanges([a]) == Wrap(SumRanges([]) + a.length) == -5;
    assert Shortfall([a]) == Shortfall([]) + 5;
  }

  lemma SignedPair(size: int)
    requires 1 <= size <= MAX_INT64 - 5
    ensures Parse("bytes=--5,0-0", size) == Ranges([Range(size + 5, -5), Range(0, 1)])
  {
    hide Split, PartOf;
    var s := "bytes=--5,0-0";
    var a, b := Range(size + 5, -5), Range(0, 1);
    assert s == PREFIX + "--5,0-0";
    assert s[|PREFIX|..] == "--5,0-0";
    assert "--5" + ([','] + "0-0") == "--5,0-0";
    assert Join(["--5", "0-0"], ',') == "--5,0-0" by { JoinTwo("--5", "0-0"); }
    SplitJoin(["--5", "0-0"], ',');
    SignedPart(size);
    ZeroPart(size);
    var parts := PartsOf(["--5", "0-0"], size);
    assert parts == [Honoured(a), Honoured(b)];
    CollectTwo(a, b);
  }

  lemma JoinTwo(a: string, b: string)
    ensures Join([a, b], ',') == a + ([','] + b)
  {
    assert [a, b][1..] == [b];
  }

  lemma CollectTwo(a: Range, b: Range)
    ensures Collect([Honoured(a), Honoured(b)], [], false) == Ranges([a, b])
  {
    assert [Honoured(a), Honoured(b)][1..] == [Honoured(b)] && [Honoured(b)][1..] == [];
    assert [] + [a] == [a] && [a] + [b] == [a, b];
    assert Collect([Honoured(b)], [a], false) == Collect([], [a, b], false);
  }

  // ----- the answer to a header of the grammar -----

  /** How many positions of the content a spec asks for. */
  ghost function Asked(spec: Spec, size: int): nat {
    |set pos | 0 <= pos < size && Requested(spec, size, pos)|
  }

  ghost function AskedInAll(specs: seq<Spec>, size: int): nat {
    if specs == [] then 0 else AskedInAll(specs[..|specs| - 1], size) + Asked(specs[|specs| - 1], size)
  }

  function Interval(a: int, b: int): (r: set<int>)
    requires a <= b
    ensures forall pos :: pos in r <==> a <= pos < b
    ensures |r| == b - a
    decreases b - a
  {
    if a == b then {} else Interval(a, b - 1) + {b - 1}
  }

  /** A range that covers a spec is as long as the spec asks for. */
  lemma CoversLength(r: Range, spec: Spec, size: int)
    requires Covers(r, spec, size)
    ensures r.length == Asked(spec, size)
  {
    assert (set pos | 0 <= pos < size && Requested(spec, size, pos)) == Interval(r.start, r.start + r.length);
  }

  lemma {:induction false} MeetsTotal(ranges: seq<Range>, specs: seq<Spec>, size: int)
    requires Meets(ranges, specs, size)
    ensures Total(ranges) == AskedInAll(specs, size) && AllWithin(ranges, size)
    decreases |ranges|
  {
    hide Covers, Asked;
    if ranges != [] {
      var n := |ranges| - 1;
      assert Covers(ranges[n], specs[n], size);
      MeetsTotal(ranges[..n], specs[..n], size);
      CoversLength(ranges[n], specs[n], size);
      CoversWithin(ranges[n], specs[n], size);
      assert forall i | 0 <= i < n :: ranges[i] == ranges[..n][i];
    }
  }

  /** The answer in terms of what is asked for: 416 if a spec runs backwards, or if nothing is kept and some
      spec starts past the end; the whole content with 200 if nothing else is asked for, or more than all of
      it; otherwise 206. */
  ghost predicate AnswersGrammar(es: seq<Element>, content: seq<byte>, out: Response) {
    var size := |content|;
    if AnyBackwards(es, size) || (Kept(es, size) == [] && AnyBeyond(es, size)) then out == Unsatisfiable
    else if Kept(es, size) == [] || AskedInAll(Kept(es, size), size) > size then out == Sent(200, size, content)
    else out.Sent? && out.status == 206
  }

  lemma GrammarAnswer(es: seq<Element>, content: seq<byte>, ctype: seq<byte>, b1: seq<byte>, b2: seq<byte>)
    requires es != [] && |content| <= MAX_INT64 && |Kept(es, |content|)| * |content| <= MAX_INT64
    ensures AnswersGrammar(es, content, Respond(HeaderText(es), content, ctype, b1, b2))
  {
    hide Parse, HeaderText, Kept, Covers, AnyBackwards, AnyBeyond, AskedInAll, MultipartBody, BodyParts, Prediction;
    var size := |content|;
    ParseMeetsMeaning(es, size);
    if !AnyBackwards(es, size) && !(Kept(es, size) == [] && AnyBeyond(es, size)) {
      var ranges := Parse(HeaderText(es), size).ranges;
      MeetsTotal(ranges, Kept(es, size), size);
      SumIsTotal(ranges, size);
      NothingToSum(size);
      WithinCopied(ranges, content);
      NoneKept(size);
    }
  }

  lemma NothingToSum(size: int)
    requires size >= 0
    ensures Served([], size) == []
  {
  }

  lemma NoneKept(size: int)
    ensures AskedInAll([], size) == 0
  {
  }

  lemma WithinCopied(ranges: seq<Range>, content: seq<byte>)
    requires AllWithin(ranges, |content|)
    ensures AllCopied(ranges, content)
    ensures |ranges| == 1 ==> ranges[0].start >= 0
  {
    forall i | 0 <= i < |ranges| ensures Copied(content, ranges[i]).Some? {
      assert Within(ranges[i], |content|);
    }
    if |ranges| == 1 {
      assert Within(ranges[0], |content|);
    }
  }

  /** A request without a Range field gets everything. */
  lemma NoFieldWhole(content: seq<byte>, ctype: seq<byte>, b1: seq<byte>, b2: seq<byte>)
    requires |content| <= MAX_INT64
    ensures Respond("", content, ctype, b1, b2) == Sent(200, |content|, content)
  {
    NothingAsked(|content|);
    NothingToSum(|content|);
  }

  /** A field in another unit is refused. */
  lemma OtherUnitRefused(header: string, content: seq<byte>, ctype: seq<byte>, b1: seq<byte>, b2: seq<byte>)
    requires header != "" && !(PREFIX <= header)
    ensures Respond(header, content, ctype, b1, b2) == Unsatisfiable
  {
  }
}
