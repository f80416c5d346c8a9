/** Byte ranges of a request (section 2.1 of RFC 7233) as the file server parses and honours them. */
module HttpRange {
  import opened Bytes
  import opened Text
  import opened Decimal

  /** The 64-bit value of an integer result. */
  function Wrap(n: int): (r: int)
    ensures IsInt64(r)
    ensures IsInt64(n) ==> r == n
  {
    (n - MIN_INT64) % 0x1_0000_0000_0000_0000 + MIN_INT64
  }

  datatype Range = Range(start: int, length: int)

  datatype Parsed = Ranges(ranges: seq<Range>) | InvalidRange | NoOverlap

  const PREFIX: string := "bytes="

  /** What one list element amounts to. */
  datatype Part = Blank | Beyond | Bad | Honoured(r: Range)

  function SuffixPart(end: string, size: int): Part {
    match ParseInt(end)
    case None => Bad
    case Some(n) =>
      var start := Wrap(size - (if n > size then size else n));
      Honoured(Range(start, Wrap(size - start)))
  }

  function FromPart(start: string, end: string, size: int): Part {
    match ParseInt(start)
    case None => Bad
    case Some(first) =>
      if first < 0 then Bad
      else if first >= size then Beyond
      else if end == "" then Honoured(Range(first, size - first))
      else
        match ParseInt(end)
        case None => Bad
        case Some(last) =>
          if first > last then Bad
          else Honoured(Range(first, (if last >= size then size - 1 else last) - first + 1))
  }

  function PartOf(text: string, size: int): Part {
    var ra := TrimSpace(text);
    if ra == "" then Blank
    else
      var i := Find(ra, '-');
      if i == |ra| then Bad
      else
        var start, end := TrimSpace(ra[..i]), TrimSpace(ra[i + 1..]);
        DashPart(start, end, size)
  }

  /** The elements in turn: the first bad one spoils the header, one past the end is only remembered. */
  function Collect(parts: seq<Part>, ranges: seq<Range>, noOverlap: bool): Parsed {
    if parts == [] then (if noOverlap && ranges == [] then NoOverlap else Ranges(ranges))
    else
      match parts[0]
      case Blank => Collect(parts[1..], ranges, noOverlap)
      case Beyond => Collect(parts[1..], ranges, true)
      case Bad => InvalidRange
      case Honoured(r) => Collect(parts[1..], ranges + [r], noOverlap)
  }

  function PartsOf(texts: seq<string>, size: int): (parts: seq<Part>)
    ensures |parts| == |texts| && forall i | 0 <= i < |parts| :: parts[i] == PartOf(texts[i], size)
  {
    seq(|texts|, i requires 0 <= i < |texts| => PartOf(texts[i], size))
  }

  function Parse(s: string, size: int): Parsed {
    if s == "" then Ranges([])
    else if !(PREFIX <= s) then InvalidRange
    else Collect(PartsOf(Split(s[|PREFIX|..], ','), size), [], false)
  }

  /** One element of the list, as the loop below reads it. */
  method ReadPart(text: string, size: int) returns (p: Part)
    requires 0 <= size <= MAX_INT64
    ensures p == PartOf(text, size)
  {
    hide TrimSpace, Find, ParseInt, Wrap;
    var ra := TrimSpace(text);
    if ra == "" {
      return Blank;
    }
    var i := Find(ra, '-');
    if i == |ra| {
      return Bad;
    }
    var start, end := TrimSpace(ra[..i]), TrimSpace(ra[i + 1..]);
    if start == "" {
      var n := ParseInt(end);
      if n.None? {
        return Bad;
      }
      var clipped := if n.value > size then size else n.value;
      var from := Wrap(size - clipped);
      return Honoured(Range(from, Wrap(size - from)));
    }
    var first := ParseInt(start);
    if first.None? || first.value < 0 {
      return Bad;
    }
    if first.value >= size {
      return Beyond;
    }
    if end == "" {
      return Honoured(Range(first.value, size - first.value));
    }
    var last := ParseInt(end);
    if last.None? || first.value > last.value {
      return Bad;
    }
    var clipped := if last.value >= size then size - 1 else last.value;
    return Honoured(Range(first.value, clipped - first.value + 1));
  }

  method ParseRange(s: string, size: int) returns (r: Parsed)
    requires 0 <= size <= MAX_INT64
    ensures r == Parse(s, size)
  {
    hide PartOf, Split;
    if s == "" {
      return Ranges([]);
    }
    if !(PREFIX <= s) {
      return InvalidRange;
    }
    var ranges: seq<Range> := [];
    var noOverlap := false;
    var texts := Split(s[|PREFIX|..], ',');
    ghost var parts := PartsOf(texts, size);
    for k := 0 to |texts|
      invariant Collect(parts[k..], ranges, noOverlap) == Parse(s, size)
    {
      assert parts[k..][1..] == parts[k + 1..];
      var p := ReadPart(texts[k], size);
      match p {
        case Blank => continue;
        case Bad => return InvalidRange;
        case Beyond => noOverlap := true;
        case Honoured(rg) => ranges := ranges + [rg];
      }
    }
    if noOverlap && ranges == [] {
      return NoOverlap;
    }
    return Ranges(ranges);
  }

  // ----- headers in the grammar -----

  /** A number of the grammar: digits, leading zeros allowed, in the 64-bit range. */
  predicate IsNumber(s: string) {
    s != "" && AllDigits(s) && Value(DigitsOf(s)) <= MAX_INT64
  }

  type Number = s: string | IsNumber(s) witness "0"

  function NumberOf(s: Number): (n: int)
    ensures 0 <= n <= MAX_INT64
  {
    Value(DigitsOf(s))
  }

  /** A byte-range-spec or suffix-byte-range-spec. */
  datatype Spec = FromTo(first: Number, last: Number) | From(first: Number) | Suffix(count: Number)

  function SpecText(spec: Spec): string {
    match spec
    case FromTo(first, last) => first + "-" + last
    case From(first) => first + "-"
    case Suffix(count) => "-" + count
  }

  type Spaces = s: string | AllSpace(UnicodeSpace, s) witness ""

  /** A list element: a spec or nothing, with optional white space around it. */
  datatype Element = Element(pre: Spaces, spec: Option<Spec>, post: Spaces)

  function ElementText(e: Element): string {
    e.pre + (if e.spec.Some? then SpecText(e.spec.value) else "") + e.post
  }

  function ElementTexts(es: seq<Element>): (texts: seq<string>)
    ensures |texts| == |es| && forall i | 0 <= i < |es| :: texts[i] == ElementText(es[i])
  {
    seq(|es|, i requires 0 <= i < |es| => ElementText(es[i]))
  }

  function HeaderText(es: seq<Element>): string
    requires es != []
  {
    PREFIX + Join(ElementTexts(es), ',')
  }

  // ----- what a spec asks for -----

  /** The positions of the content a spec asks for. */
  ghost predicate Requested(spec: Spec, size: int, pos: int)
  {
    && 0 <= pos < size
    && match spec
       case FromTo(first, last) => NumberOf(first) <= pos <= NumberOf(last)
       case From(first) => NumberOf(first) <= pos
       case Suffix(count) => size - NumberOf(count) <= pos
  }

  predicate StartsBeyond(spec: Spec, size: int)
  {
    !spec.Suffix? && NumberOf(spec.first) >= size
  }

  /** A spec whose end precedes its start; the server only notices when it starts within the content. */
  predicate Backwards(spec: Spec, size: int)
  {
    spec.FromTo? && NumberOf(spec.last) < NumberOf(spec.first) < size
  }

  predicate Within(r: Range, size: int) {
    0 <= r.start && 0 <= r.length && r.start + r.length <= size
  }

  /** Exactly the positions asked for; a range without any stands at the end. */
  ghost predicate Covers(r: Range, spec: Spec, size: int)
  {
    && Within(r, size) && (r.length == 0 ==> r.start == size)
    && forall pos :: r.start <= pos < r.start + r.length <==> Requested(spec, size, pos)
  }

  /** The specs in request order, without blanks and those past the end. */
  function Kept(es: seq<Element>, size: int): (specs: seq<Spec>)
  {
    if es == [] then []
    else
      var rest := Kept(es[1..], size);
      if es[0].spec.Some? && !StartsBeyond(es[0].spec.value, size) then [es[0].spec.value] + rest else rest
  }

  ghost predicate Meets(ranges: seq<Range>, specs: seq<Spec>, size: int)
  {
    |ranges| == |specs| && forall i | 0 <= i < |specs| :: Covers(ranges[i], specs[i], size)
  }

  // ----- proofs -----

  lemma DigitsAreTight(s: string)
    requires AllDigits(s)
    ensures Tight(UnicodeSpace, s) && '-' !in s && ',' !in s
  {
  }

  lemma NumberParsed(s: Number)
    ensures ParseInt(s) == Some(NumberOf(s)) && s != ""
  {
    assert IsDigit(s[0]);
  }

  lemma TightTrimmed(s: string)
    requires Tight(UnicodeSpace, s)
    ensures TrimSpace(s) == s
  {
    TrimAround(UnicodeSpace, "", s, "");
    assert "" + s + "" == s;
  }

  /** Splitting a spec at its dash gives its two numbers back. */
  lemma SplitAtDash(a: string, b: string)
    requires AllDigits(a) && AllDigits(b)
    ensures var ra := a + "-" + b;
            && Find(ra, '-') == |a| && TrimSpace(ra[..|a|]) == a && TrimSpace(ra[|a| + 1..]) == b
            && Tight(UnicodeSpace, ra) && ',' !in ra
  {
    hide TrimSpace;
    DigitsAreTight(a);
    DigitsAreTight(b);
    TightTrimmed(a);
    TightTrimmed(b);
    var ra := a + "-" + b;
    FindUnique(ra, '-', |a|);
    assert ra[..|a|] == a && ra[|a| + 1..] == b;
  }

  /** One element of the grammar is read as what it asks for. */
  lemma ElementRead(e: Element, size: int)
    requires 0 <= size <= MAX_INT64
    ensures ',' !in ElementText(e)
    ensures e.spec.None? ==> PartOf(ElementText(e), size) == Blank
    ensures e.spec.Some? ==> PartOf(ElementText(e), size) == SpecPart(e.spec.value, size)
  {
    hide Trim, Find, SpecPart, SpecText;
    SpacesHaveNoComma(e.pre);
    SpacesHaveNoComma(e.post);
    if e.spec.Some? {
      SpecRead(e.spec.value, size);
      TrimAround(UnicodeSpace, e.pre, SpecText(e.spec.value), e.post);
    } else {
      TrimAround(UnicodeSpace, e.pre, "", e.post);
    }
  }

  /** Space around the dash is ignored as well. */
  lemma InnerSpaceIgnored(a: Number, b: Number, pre: Spaces, s: Spaces, t: Spaces, post: Spaces, size: int)
    requires 0 <= size <= MAX_INT64
    ensures PartOf(pre + (a + s + "-" + (t + b)) + post, size) == SpecPart(FromTo(a, b), size)
  {
    hide Trim, Find, SpecPart, DashPart;
    var ra := a + s + "-" + (t + b);
    DigitsAreTight(a);
    DigitsAreTight(b);
    TrimAround(UnicodeSpace, pre, ra, post);
    assert '-' !in s by { SpacesHaveNoDash(s); }
    assert ra[|a| + |s|] == '-' && forall i | 0 <= i < |a| + |s| :: ra[i] != '-';
    FindUnique(ra, '-', |a| + |s|);
    assert ra[..|a| + |s|] == "" + a + s && ra[|a| + |s| + 1..] == t + b + "";
    TrimAround(UnicodeSpace, "", a, s);
    TrimAround(UnicodeSpace, t, b, "");
    NumbersRead(FromTo(a, b), size);
  }

  lemma SpacesHaveNoDash(s: string)
    requires AllSpace(UnicodeSpace, s)
    ensures '-' !in s
  {
  }

  lemma SpacesHaveNoComma(s: string)
    requires AllSpace(UnicodeSpace, s)
    ensures ',' !in s
  {
  }

  /** The part a spec's own text gives, without going through the text. */
  function SpecPart(spec: Spec, size: int): Part
  {
    match spec
    case Suffix(count) => var n := NumberOf(count); var m := if n > size then size else n; Honoured(Range(size - m, m))
    case From(first) =>
      if NumberOf(first) >= size then Beyond else Honoured(Range(NumberOf(first), size - NumberOf(first)))
    case FromTo(first, last) =>
      var a, b := NumberOf(first), NumberOf(last);
      if a >= size then Beyond
      else if a > b then Bad
      else Honoured(Range(a, (if b >= size then size - 1 else b) - a + 1))
  }

  /** The part of a text with a dash between two digit strings. */
  function DashPart(a: string, b: string, size: int): Part {
    if a == "" then SuffixPart(b, size) else FromPart(a, b, size)
  }

  /** A text that is trimmed, holds no comma and reads as the given part. */
  ghost predicate ReadsAs(ra: string, p: Part, size: int) {
    && ra != "" && Tight(UnicodeSpace, ra) && ',' !in ra && Find(ra, '-') < |ra|
    && DashPart(TrimSpace(ra[..Find(ra, '-')]), TrimSpace(ra[Find(ra, '-') + 1..]), size) == p
  }

  lemma DashRead(a: string, b: string, size: int)
    requires AllDigits(a) && AllDigits(b)
    ensures ReadsAs(a + "-" + b, DashPart(a, b, size), size)
  {
    hide TrimSpace, Find, DashPart;
    SplitAtDash(a, b);
  }

  /** The two numbers around a spec's dash. */
  function Around(spec: Spec): (r: (string, string))
    ensures AllDigits(r.0) && AllDigits(r.1)
    ensures SpecText(spec) == r.0 + "-" + r.1
  {
    match spec
    case FromTo(first, last) => (first, last)
    case From(first) => (first, "")
    case Suffix(count) => ("", count)
  }

  lemma NumbersRead(spec: Spec, size: int)
    requires 0 <= size <= MAX_INT64
    ensures DashPart(Around(spec).0, Around(spec).1, size) == SpecPart(spec, size)
  {
    hide ParseInt, NumberOf, Wrap;
    match spec
    case FromTo(a, b) =>
      NumberParsed(a);
      NumberParsed(b);
    case From(a) => NumberParsed(a);
    case Suffix(b) =>
      NumberParsed(b);
      SuffixLength(b, size);
  }

  lemma SpecRead(spec: Spec, size: int)
    requires 0 <= size <= MAX_INT64
    ensures ReadsAs(SpecText(spec), SpecPart(spec, size), size)
  {
    hide ReadsAs, DashPart, SpecPart, SpecText;
    DashRead(Around(spec).0, Around(spec).1, size);
    NumbersRead(spec, size);
  }

  lemma SpecPartMeaning(spec: Spec, size: int)
    requires 0 <= size <= MAX_INT64
    ensures SpecPart(spec, size) != Blank
    ensures SpecPart(spec, size) == Beyond <==> StartsBeyond(spec, size)
    ensures SpecPart(spec, size) == Bad <==> Backwards(spec, size)
    ensures SpecPart(spec, size).Honoured? ==> Covers(SpecPart(spec, size).r, spec, size)
  {
    hide NumberOf;
  }

  function ElementParts(es: seq<Element>, size: int): seq<Part>
  {
    seq(|es|, i requires 0 <= i < |es| => if es[i].spec.Some? then SpecPart(es[i].spec.value, size) else Blank)
  }

  predicate AnyBackwards(es: seq<Element>, size: int)
  {
    exists i | 0 <= i < |es| :: es[i].spec.Some? && Backwards(es[i].spec.value, size)
  }

  predicate AnyBeyond(es: seq<Element>, size: int)
  {
    exists i | 0 <= i < |es| :: es[i].spec.Some? && StartsBeyond(es[i].spec.value, size)
  }

  lemma {:induction false} CollectMeaning(es: seq<Element>, size: int, ranges: seq<Range>, noOverlap: bool)
    requires 0 <= size <= MAX_INT64
    ensures var out := Collect(ElementParts(es, size), ranges, noOverlap);
            if AnyBackwards(es, size) then out == InvalidRange
            else if ranges == [] && Kept(es, size) == [] && (noOverlap || AnyBeyond(es, size)) then out == NoOverlap
            else && out.Ranges? && ranges <= out.ranges
                 && Meets(out.ranges[|ranges|..], Kept(es, size), size)
    decreases |es|
  {
    hide SpecPart, StartsBeyond, Backwards, Covers;
    if es != [] {
      var parts := ElementParts(es, size);
      assert parts[1..] == ElementParts(es[1..], size);
      if es[0].spec.Some? {
        SpecPartMeaning(es[0].spec.value, size);
      }
      match parts[0] {
        case Blank => CollectMeaning(es[1..], size, ranges, noOverlap);
        case Beyond => CollectMeaning(es[1..], size, ranges, true);
        case Bad =>
        case Honoured(r) =>
          CollectMeaning(es[1..], size, ranges + [r], noOverlap);
          assert Collect(parts, ranges, noOverlap).Ranges? ==>
            Collect(parts, ranges, noOverlap).ranges[|ranges|..] ==
              [r] + Collect(parts, ranges, noOverlap).ranges[|ranges| + 1..];
      }
    }
  }

  /** Range parsing meets its meaning: for every header of the grammar with 64-bit numbers, the header
      is invalid exactly when some spec within the content runs backwards; there is no overlap exactly
      when nothing is left and some spec starts past the end; otherwise the ranges are, in request order,
      exactly the positions asked for by the specs that start within the content, clipped to it. */
  lemma ParseMeetsMeaning(es: seq<Element>, size: int)
    requires 0 <= size <= MAX_INT64 && es != []
    ensures var out := Parse(HeaderText(es), size);
            if AnyBackwards(es, size) then out == InvalidRange
            else if Kept(es, size) == [] && AnyBeyond(es, size) then out == NoOverlap
            else out.Ranges? && Meets(out.ranges, Kept(es, size), size)
  {
    hide PartOf, ElementText, Split, Join;
    var texts := ElementTexts(es);
    forall i | 0 <= i < |es|
      ensures ',' !in texts[i] && PartOf(texts[i], size) == ElementParts(es, size)[i]
    {
      ElementRead(es[i], size);
    }
    SplitJoin(texts, ',');
    var s := HeaderText(es);
    assert s[|PREFIX|..] == Join(texts, ',');
    assert PartsOf(texts, size) == ElementParts(es, size);
    CollectMeaning(es, size, [], false);
    var out := Parse(s, size);
    assert out.Ranges? ==> out.ranges[0..] == out.ranges;
  }

  // ----- all headers -----

  /** A suffix with a minus sign of its own. */
  predicate NegativeSuffix(text: string) {
    var ra := TrimSpace(text);
    ra != "" && ra[0] == '-' && ParseInt(TrimSpace(ra[1..])).Some? && ParseInt(TrimSpace(ra[1..])).value < 0
  }

  lemma PartWithin(text: string, size: int)
    requires 0 <= size <= MAX_INT64 && PartOf(text, size).Honoured?
    ensures Within(PartOf(text, size).r, size) <==> !NegativeSuffix(text)
  {
    hide ParseInt, TrimSpace, Find, Tight, IsSpace;
    var ra := TrimSpace(text);
    var i := Find(ra, '-');
    IntRange(TrimSpace(ra[i + 1..]));
    if i == 0 {
      assert ra[..0] == "";
      TrimmedEmpty();
      SuffixLength(TrimSpace(ra[1..]), size);
    } else {
      DashInside(text, i);
    }
  }

  lemma TrimmedEmpty()
    ensures TrimSpace("") == ""
  {
  }

  /** What stands before a dash inside trimmed text is not all space. */
  lemma DashInside(text: string, i: nat)
    requires 0 < i < |TrimSpace(text)|
    ensures TrimSpace(TrimSpace(text)[..i]) != ""
  {
    hide TrimSpace;
    var ra := TrimSpace(text);
    TightHead(text);
    if TrimSpace(ra[..i]) == "" {
      TrimmedToNothing(ra[..i]);
    }
  }

  lemma IntRange(s: string)
    ensures ParseInt(s).Some? ==> IsInt64(ParseInt(s).value)
  {
  }

  /** The 64-bit arithmetic of a suffix always gives the number itself as length, clipped to the size. */
  lemma SuffixLength(end: string, size: int)
    requires 0 <= size <= MAX_INT64 && ParseInt(end).Some?
    ensures var n := ParseInt(end).value;
            var m := if n > size then size else n;
            && SuffixPart(end, size).Honoured? && SuffixPart(end, size).r.length == m
            && (m >= 0 ==> SuffixPart(end, size).r.start == size - m)
  {
    IntRange(end);
  }

  lemma TightHead(s: string)
    ensures Tight(UnicodeSpace, TrimSpace(s))
  {
  }

  lemma TrimmedToNothing(s: string)
    requires s != "" && TrimSpace(s) == ""
    ensures IsSpace(UnicodeSpace, s[0])
  {
    if !IsSpace(UnicodeSpace, s[0]) {
      KeepsHead(s);
    }
  }

  lemma {:induction false} KeepsHead(s: string)
    requires s != "" && !IsSpace(UnicodeSpace, s[0])
    ensures TrimRight(UnicodeSpace, s) != ""
    decreases |s|
  {
    if IsSpace(UnicodeSpace, s[|s| - 1]) {
      KeepsHead(s[..|s| - 1]);
    }
  }

  predicate AllWithin(ranges: seq<Range>, size: int) {
    forall i | 0 <= i < |ranges| :: Within(ranges[i], size)
  }

  /** No honoured element is a suffix with a sign of its own. */
  predicate AllUnsigned(texts: seq<string>, size: int) {
    forall i | 0 <= i < |texts| :: PartOf(texts[i], size).Honoured? ==> !NegativeSuffix(texts[i])
  }

  lemma AllUnsignedCons(texts: seq<string>, size: int)
    requires texts != []
    ensures AllUnsigned(texts, size) <==>
            (PartOf(texts[0], size).Honoured? ==> !NegativeSuffix(texts[0])) && AllUnsigned(texts[1..], size)
  {
    hide PartOf, NegativeSuffix;
    assert forall i | 1 <= i < |texts| :: texts[i] == texts[1..][i - 1];
  }

  lemma {:induction false} CollectWithin(texts: seq<string>, size: int, ranges: seq<Range>, noOverlap: bool)
    requires 0 <= size <= MAX_INT64 && AllWithin(ranges, size)
    ensures var out := Collect(PartsOf(texts, size), ranges, noOverlap);
            out.Ranges? ==> (AllWithin(out.ranges, size) <==> AllUnsigned(texts, size))
    decreases |texts|
  {
    hide PartOf, NegativeSuffix, Within, AllUnsigned;
    if texts == [] {
      assert AllUnsigned(texts, size) by { NoneUnsigned(size); }
    } else {
      AllUnsignedCons(texts, size);
      var parts := PartsOf(texts, size);
      assert parts[1..] == PartsOf(texts[1..], size) && parts[0] == PartOf(texts[0], size);
      var out := Collect(parts, ranges, noOverlap);
      match parts[0] {
        case Blank => CollectWithin(texts[1..], size, ranges, noOverlap);
        case Beyond => CollectWithin(texts[1..], size, ranges, true);
        case Bad =>
        case Honoured(r) =>
          PartWithin(texts[0], size);
          if Within(r, size) {
            CollectWithin(texts[1..], size, ranges + [r], noOverlap);
          } else {
            CollectKeeps(parts[1..], ranges + [r], noOverlap);
            assert out.Ranges? ==> out.ranges[|ranges|] == r;
          }
      }
    }
  }

  lemma NoneUnsigned(size: int)
    ensures AllUnsigned([], size)
  {
  }

  lemma {:induction false} CollectKeeps(parts: seq<Part>, ranges: seq<Range>, noOverlap: bool)
    ensures var out := Collect(parts, ranges, noOverlap); out.Ranges? ==> ranges <= out.ranges
    decreases |parts|
  {
    if parts != [] {
      match parts[0] {
        case Blank => CollectKeeps(parts[1..], ranges, noOverlap);
        case Beyond => CollectKeeps(parts[1..], ranges, true);
        case Bad =>
        case Honoured(r) => CollectKeeps(parts[1..], ranges + [r], noOverlap);
      }
    }
  }

  /** Whatever the header, what is accepted lies within the content if and only if no element of it is
      a suffix with a sign of its own. */
  lemma WithinUnlessSigned(s: string, size: int)
    requires 0 <= size <= MAX_INT64 && PREFIX <= s && Parse(s, size).Ranges?
    ensures var texts := Split(s[|PREFIX|..], ',');
            AllWithin(Parse(s, size).ranges, size) <==>
            (forall i | 0 <= i < |texts| :: !NegativeSuffix(texts[i]))
  {
    hide PartOf, NegativeSuffix, Within, Split, Collect;
    var texts := Split(s[|PREFIX|..], ',');
    assert Parse(s, size) == Collect(PartsOf(texts, size), [], false);
    CollectWithin(texts, size, [], false);
    forall i | 0 <= i < |texts| && NegativeSuffix(texts[i]) ensures PartOf(texts[i], size).Honoured? {
      NegativeIsHonoured(texts[i], size);
    }
  }

  lemma NegativeIsHonoured(text: string, size: int)
    requires NegativeSuffix(text)
    ensures PartOf(text, size).Honoured?
  {
    var ra := TrimSpace(text);
    assert Find(ra, '-') == 0 && ra[..0] == "" && TrimSpace("") == "";
  }

  /** The shape of every accepted range: within the content, or of negative length and then either past the
      end by as much, or, where the 64-bit subtraction overflows, with a negative start. */
  predicate Shaped(r: Range, size: int) {
    || Within(r, size)
    || (r.length < 0 && IsInt64(r.start) && (r.start >= 0 ==> r.start + r.length == size))
  }

  predicate AllShaped(ranges: seq<Range>, size: int) {
    forall i | 0 <= i < |ranges| :: Shaped(ranges[i], size)
  }

  lemma PartShaped(text: string, size: int)
    requires 0 <= size <= MAX_INT64 && PartOf(text, size).Honoured?
    ensures Shaped(PartOf(text, size).r, size)
  {
    hide TrimSpace, Find, ParseInt;
    var ra := TrimSpace(text);
    var i := Find(ra, '-');
    IntRange(TrimSpace(ra[i + 1..]));
    if TrimSpace(ra[..i]) == "" {
      SuffixShaped(TrimSpace(ra[i + 1..]), size);
    }
  }

  lemma SuffixShaped(end: string, size: int)
    requires 0 <= size <= MAX_INT64 && SuffixPart(end, size).Honoured?
    ensures Shaped(SuffixPart(end, size).r, size)
  {
    hide ParseInt;
    SuffixLength(end, size);
    IntRange(end);
  }

  lemma {:induction false} CollectShaped(texts: seq<string>, size: int, ranges: seq<Range>, noOverlap: bool)
    requires 0 <= size <= MAX_INT64 && AllShaped(ranges, size)
    ensures var out := Collect(PartsOf(texts, size), ranges, noOverlap); out.Ranges? ==> AllShaped(out.ranges, size)
    decreases |texts|
  {
    hide PartOf, Shaped;
    if texts != [] {
      var parts := PartsOf(texts, size);
      assert parts[1..] == PartsOf(texts[1..], size) && parts[0] == PartOf(texts[0], size);
      match parts[0] {
        case Blank => CollectShaped(texts[1..], size, ranges, noOverlap);
        case Beyond => CollectShaped(texts[1..], size, ranges, true);
        case Bad =>
        case Honoured(r) =>
          PartShaped(texts[0], size);
          CollectShaped(texts[1..], size, ranges + [r], noOverlap);
      }
    }
  }

  lemma ParseShaped(s: string, size: int)
    requires 0 <= size <= MAX_INT64 && Parse(s, size).Ranges?
    ensures AllShaped(Parse(s, size).ranges, size)
  {
    hide Collect, Split, PartOf, Shaped;
    if s != "" {
      CollectShaped(Split(s[|PREFIX|..], ','), size, [], false);
    }
  }

  /** Such a header is accepted: the range of `bytes=--5` starts past the end with a negative length. */
  lemma SignedSuffixAccepted(size: int)
    requires 0 <= size <= MAX_INT64 - 5
    ensures Parse("bytes=--5", size) == Ranges([Range(size + 5, -5)])
  {
    hide Split, PartOf, Collect;
    var s := "bytes=--5";
    assert s == PREFIX + "--5";
    assert s[|PREFIX|..] == "--5";
    SplitWhole("--5", ',');
    SignedPart(size);
    CollectOne(Range(size + 5, -5));
    assert PartsOf(["--5"], size) == [Honoured(Range(size + 5, -5))];
  }

  lemma SignedPart(size: int)
    requires 0 <= size <= MAX_INT64 - 5
    ensures PartOf("--5", size) == Honoured(Range(size + 5, -5))
  {
    hide TrimSpace, Find, ParseInt;
    TightTrimmed("--5");
    TightTrimmed("-5");
    TightTrimmed("");
    FindUnique("--5", '-', 0);
    assert "--5"[..0] == "" && "--5"[1..] == "-5";
    MinusFive();
  }

  lemma CollectOne(r: Range)
    ensures Collect([Honoured(r)], [], false) == Ranges([r])
  {
    assert [Honoured(r)][1..] == [];
    assert [] + [r] == [r];
  }

  lemma SplitWhole(s: string, sep: char)
    requires sep !in s
    ensures Split(s, sep) == [s]
  {
    SplitNone(s, sep, 0);
  }

  lemma MinusFive()
    ensures ParseInt("-5") == Some(-5)
  {
    assert "-5"[1..] == "5";
    assert DigitsOf("5") == [5];
    assert Value([5]) == 5;
  }

  // ----- which ranges are honoured -----

  function Total(ranges: seq<Range>): int {
    if ranges == [] then 0 else Total(ranges[..|ranges| - 1]) + ranges[|ranges| - 1].length
  }

  /** The running 64-bit sum. */
  function SumRanges(ranges: seq<Range>): int {
    if ranges == [] then 0 else Wrap(SumRanges(ranges[..|ranges| - 1]) + ranges[|ranges| - 1].length)
  }

  method SumRangesSize(ranges: seq<Range>) returns (size: int)
    ensures size == SumRanges(ranges)
  {
    size := 0;
    for k := 0 to |ranges|
      invariant size == SumRanges(ranges[..k])
    {
      assert ranges[..k + 1][..k] == ranges[..k];
      size := Wrap(size + ranges[k].length);
    }
    assert ranges[..|ranges|] == ranges;
  }

  lemma WrapAdd(a: int, b: int)
    ensures Wrap(Wrap(a) + b) == Wrap(a + b)
  {
    var q := (a - MIN_INT64) / 0x1_0000_0000_0000_0000;
    assert Wrap(a) + b == a + b - q * 0x1_0000_0000_0000_0000;
    WrapShift(a + b, q);
  }

  lemma {:induction false} WrapShift(n: int, q: int)
    ensures Wrap(n - q * 0x1_0000_0000_0000_0000) == Wrap(n)
    decreases if q < 0 then -q else q
  {
    if q > 0 {
      WrapShift(n, q - 1);
    } else if q < 0 {
      WrapShift(n, q + 1);
    }
  }

  /** The running sum is the total modulo 2 to the 64. */
  lemma {:induction false} SumWraps(ranges: seq<Range>)
    ensures SumRanges(ranges) == Wrap(Total(ranges))
  {
    if ranges != [] {
      SumWraps(ranges[..|ranges| - 1]);
      WrapAdd(Total(ranges[..|ranges| - 1]), ranges[|ranges| - 1].length);
    }
  }

  /** Ranges that ask for more than the whole are ignored. */
  function Served(ranges: seq<Range>, size: int): seq<Range> {
    if SumRanges(ranges) > size then [] else ranges
  }

  lemma {:induction false} SumIsTotal(ranges: seq<Range>, size: int)
    requires 0 <= size && AllWithin(ranges, size) && |ranges| * size <= MAX_INT64
    ensures 0 <= Total(ranges) <= |ranges| * size
    ensures SumRanges(ranges) == Total(ranges)
  {
    if ranges != [] {
      var init := ranges[..|ranges| - 1];
      assert |init| * size + size == |ranges| * size;
      SumIsTotal(init, size);
      assert Within(ranges[|ranges| - 1], size);
    }
  }

  /** Honoured ranges total at most the size, as long as count times size fits in 64 bits. */
  lemma ServedWithinSize(ranges: seq<Range>, size: int)
    requires 0 <= size && AllWithin(ranges, size) && |ranges| * size <= MAX_INT64
    ensures Total(Served(ranges, size)) <= size
    ensures Total(ranges) <= size ==> Served(ranges, size) == ranges
  {
    SumIsTotal(ranges, size);
  }
}
