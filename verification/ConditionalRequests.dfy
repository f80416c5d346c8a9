/** What single conditional header fields do to a request, in the terms of RFC 7232 and RFC 7233. */
module ConditionalRequests {
  import opened Bytes
  import opened Text
  import opened EntityTag
  import opened Preconditions

  // ----- comparing tags (section 2.3.2 of RFC 7232) -----

  /** Strong comparison: equal and both not weak. Weak comparison: equal but for weakness. */
  lemma ComparisonTable(a: Tag, b: Tag)
    ensures StrongMatch(TagString(a), TagString(b)) <==> !a.weak && !b.weak && a.text == b.text
    ensures WeakMatch(TagString(a), TagString(b)) <==> a.text == b.text
  {
    OpaqueOf(a);
    OpaqueOf(b);
    QuotedInjective(a.text, b.text);
    TagStartOf(a, "");
    TagStartOf(b, "");
    assert TagString(a) + "" == TagString(a) && TagString(b) + "" == TagString(b);
  }

  lemma OpaqueOf(t: Tag)
    ensures Opaque(TagString(t)) == "\"" + (t.text + "\"")
  {
    if t.weak {
      assert TagString(t)[2..] == "\"" + (t.text + "\"");
    } else {
      assert TagString(t) == "\"" + (t.text + "\"");
      assert TagString(t)[0] == '"' && "W/"[0] != '"';
    }
  }

  lemma QuotedInjective(a: string, b: string)
    ensures "\"" + (a + "\"") == "\"" + (b + "\"") <==> a == b
  {
    var x, y := "\"" + (a + "\""), "\"" + (b + "\"");
    assert x[1..|x| - 1] == a && y[1..|y| - 1] == b;
  }

  /** A resource without a tag matches nothing. */
  lemma NoTagNoMatch(a: Tag)
    ensures !StrongMatch(TagString(a), "") && !WeakMatch(TagString(a), "")
  {
    OpaqueOf(a);
  }

  /** The lists of sections 3.1 and 3.2 against a resource's tag, in terms of the tags themselves. */
  lemma ListsByTags(es: seq<Element>, current: Tag)
    requires es != []
    ensures var etag := TagString(current);
            && (IfMatch(ListText(es, ""), etag) == CondTrue <==>
                  exists i | 0 <= i < |es| :: !es[i].tag.weak && !current.weak && es[i].tag.text == current.text)
            && (IfNoneMatch(ListText(es, ""), etag) == CondFalse <==>
                  exists i | 0 <= i < |es| :: es[i].tag.text == current.text)
  {
    hide IfMatch, IfNoneMatch, ListText, StrongMatch, WeakMatch, TagString;
    ListsMeanTheirTags(es, TagString(current));
    forall i | 0 <= i < |es|
      ensures StrongMatch(TagString(es[i].tag), TagString(current)) <==> !es[i].tag.weak && !current.weak && es[i].tag.text == current.text
      ensures WeakMatch(TagString(es[i].tag), TagString(current)) <==> es[i].tag.text == current.text
    {
      ComparisonTable(es[i].tag, current);
    }
  }

  /** A star stands for any resource: If-Match holds and If-None-Match does not. */
  lemma Star(pre: Spaces, rest: string, etag: string)
    ensures IfMatch(pre + ("*" + rest), etag) == CondTrue
    ensures IfNoneMatch(pre + ("*" + rest), etag) == CondFalse
  {
    hide TrimRight;
    TrimHead(HttpSpace, pre, "*", rest);
    var t := "*" + TrimRight(HttpSpace, rest);
    assert NoneMatchItem(t, etag) == CondFalse;
  }

  /** Text that is neither a tag, a star nor a comma ends a scan: nothing in it matches. */
  lemma Malformed(header: string, etag: string)
    requires Trim(HttpSpace, header) != "" && Trim(HttpSpace, header)[0] != ',' && Trim(HttpSpace, header)[0] != '*'
    requires Scan(Trim(HttpSpace, header)).0 == ""
    ensures IfMatch(header, etag) == CondFalse && IfNoneMatch(header, etag) == CondTrue
  {
    hide Scan, Trim;
    assert NoneMatchItem(Trim(HttpSpace, header), etag) == CondTrue;
  }

  /** The characters of an opaque tag (etagc in section 2.3 of RFC 7232) and of optional white space. */
  lemma TagCharacters(c: char)
    ensures TagChar(c) <==> c as int == 0x21 || 0x23 <= c as int <= 0x7E || c as int >= 0x80
    ensures IsSpace(HttpSpace, c) <==> c as int in {0x20, 0x09, 0x0D, 0x0A}
  {
  }

  // ----- If-Unmodified-Since -----

  function OnlyUnmodifiedSince(verb: string, since: string, range: string): Request {
    Request(verb, "", since, "", "", "", range)
  }

  /** Alone, the field fails a request exactly if it is a date and the resource has a time of a later second;
      otherwise the request goes on. */
  lemma UnmodifiedSinceAlone(d: Dates, r: Resource, verb: string, since: string, range: string)
    ensures var out := Decide(d, OnlyUnmodifiedSince(verb, since, range), r);
            if since != "" && !IsZeroTime(r.modtime) && d.parse(since).Some? && Unix(r.modtime) > d.parse(since).value
            then out == PreconditionFailed
            else out == Proceed(range)
  {
    var q := OnlyUnmodifiedSince(verb, since, range);
    var e := Evaluate(d, q, r);
    assert e.ifMatch.None? && e.ifNoneMatch.None? && e.ifModifiedSince.None? && e.ifRange.None?;
    if d.parse(since).Some? {
      var t := d.parse(since).value;
      assert r.modtime < t * SECOND + SECOND <==> Unix(r.modtime) <= t;
    }
  }

  /** Returning the Last-Modified value of `earlier` as If-Unmodified-Since: 412 if and only if the resource
      was modified in a later second. */
  lemma UnmodifiedByDate(d: Dates, earlier: Resource, r: Resource, verb: string, range: string)
    requires !IsZeroTime(earlier.modtime) && LawfulAt(d, Unix(earlier.modtime))
    ensures var out := Decide(d, OnlyUnmodifiedSince(verb, LastModified(d, earlier).value, range), r);
            && (out == PreconditionFailed <==> !IsZeroTime(r.modtime) && Unix(r.modtime) > Unix(earlier.modtime))
            && (out == PreconditionFailed || out == Proceed(range))
  {
    hide Decide;
    UnmodifiedSinceAlone(d, r, verb, LastModified(d, earlier).value, range);
  }

  // ----- If-Range -----

  function OnlyRange(verb: string, ifRange: string, range: string): Request {
    Request(verb, "", "", "", "", ifRange, range)
  }

  /** Whether the range of a request with If-Range is kept: the field is the resource's strong tag, or no tag
      but a date of the very second of its modification. */
  ghost predicate KeepsRange(d: Dates, r: Resource, ifRange: string) {
    var tag := Scan(ifRange).0;
    if tag != "" then StrongMatch(tag, r.etag)
    else r.modtime != ZERO_TIME && d.parse(ifRange) == Some(Unix(r.modtime))
  }

  /** Alone, the field only decides whether the range is kept, and only for GET and HEAD. */
  lemma IfRangeAlone(d: Dates, r: Resource, verb: string, ifRange: string, range: string)
    ensures Decide(d, OnlyRange(verb, ifRange, range), r)
            == Proceed(if ifRange == "" || !IsRead(verb) || KeepsRange(d, r, ifRange) then range else "")
  {
    hide Scan, StrongMatch;
    var q := OnlyRange(verb, ifRange, range);
    var e := Evaluate(d, q, r);
    assert e.ifMatch.None? && e.ifNoneMatch.None? && e.ifModifiedSince.None? && e.ifUnmodifiedSince.None?;
  }

  /** By date: the range is kept if and only if the Last-Modified second is the resource's. */
  lemma IfRangeByDate(d: Dates, earlier: Resource, r: Resource, verb: string, range: string)
    requires IsRead(verb) && !IsZeroTime(earlier.modtime) && LawfulAt(d, Unix(earlier.modtime))
    requires Scan(d.format(Unix(earlier.modtime))).0 == "" && r.modtime != ZERO_TIME
    ensures Decide(d, OnlyRange(verb, LastModified(d, earlier).value, range), r)
            == Proceed(if Unix(r.modtime) == Unix(earlier.modtime) then range else "")
  {
    hide Decide, Scan;
    IfRangeAlone(d, r, verb, LastModified(d, earlier).value, range);
  }

  /** By tag: the range is kept if and only if the tag is strong and the resource's own. */
  lemma IfRangeByTag(d: Dates, r: Resource, verb: string, pre: Spaces, tag: Tag, rest: string, current: Tag, range: string)
    requires IsRead(verb) && r.etag == TagString(current)
    ensures Decide(d, OnlyRange(verb, pre + (TagString(tag) + rest), range), r)
            == Proceed(if !tag.weak && !current.weak && tag.text == current.text then range else "")
  {
    hide Decide, Scan, StrongMatch, TagString;
    var field := pre + (TagString(tag) + rest);
    ScanTag(pre, tag, rest);
    NotEmpty(tag);
    ComparisonTable(tag, current);
    IfRangeAlone(d, r, verb, field, range);
  }

  lemma NotEmpty(tag: Tag)
    ensures TagString(tag) != ""
  {
  }
}
