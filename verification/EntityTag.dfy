/** Entity-tag lists (sections 2.3, 3.1 and 3.2 of RFC 7232) as the file server scans them.
    Characters stand for the bytes of the header. */
module EntityTag {
  import opened Bytes
  import opened Text

  /** Characters allowed between the quotes of a tag. */
  predicate TagChar(c: char) {
    c == '!' || '#' <= c <= '~' || c >= '\U{80}'
  }

  /** Position after the closing quote, scanning from `i`. */
  function TagEnd(s: string, i: nat): (n: Option<nat>)
    requires i <= |s|
    ensures n.Some? ==> i < n.value <= |s|
    decreases |s| - i
  {
    if i == |s| then None
    else if s[i] == '"' then Some(i + 1)
    else if TagChar(s[i]) then TagEnd(s, i + 1)
    else None
  }

  function TagStart(s: string): nat {
    if "W/" <= s then 2 else 0
  }

  /** The tag at the head of `s` and the text after it; two empty strings if there is none. */
  function Scan(s: string): (r: (string, string))
    ensures r.0 != "" ==> |r.1| < |s|
  {
    var t := Trim(HttpSpace, s);
    var start := TagStart(t);
    if |t| - start < 2 || t[start] != '"' then ("", "")
    else
      match TagEnd(t, start + 1)
      case None => ("", "")
      case Some(n) => (t[..n], t[n..])
  }

  method ScanETag(s: string) returns (etag: string, remain: string)
    ensures (etag, remain) == Scan(s)
  {
    var t := Trim(HttpSpace, s);
    var start := 0;
    if "W/" <= t {
      start := 2;
    }
    if |t| - start < 2 || t[start] != '"' {
      return "", "";
    }
    var i := start + 1;
    while i < |t|
      invariant start + 1 <= i <= |t|
      invariant TagEnd(t, start + 1) == TagEnd(t, i)
    {
      if TagChar(t[i]) {
      } else if t[i] == '"' {
        return t[..i + 1], t[i + 1..];
      } else {
        return "", "";
      }
      i := i + 1;
    }
    return "", "";
  }

  predicate StrongMatch(a: string, b: string) {
    a == b && a != "" && a[0] == '"'
  }

  function Opaque(a: string): string {
    if "W/" <= a then a[2..] else a
  }

  predicate WeakMatch(a: string, b: string) {
    Opaque(a) == Opaque(b)
  }

  /** `Panic` is the index out of range that the scan of If-None-Match can run into. */
  datatype Cond = CondNone | CondTrue | CondFalse | Panic

  /** The scan of an If-Match list against the current tag. */
  function MatchList(s: string, etag: string): Cond
    decreases |s|
  {
    var t := Trim(HttpSpace, s);
    if t == "" then CondFalse
    else if t[0] == ',' then MatchList(t[1..], etag)
    else if t[0] == '*' then CondTrue
    else
      var (tag, rest) := Scan(t);
      if tag == "" then CondFalse
      else if StrongMatch(tag, etag) then CondTrue
      else MatchList(rest, etag)
  }

  function IfMatch(header: string, etag: string): Cond {
    if header == "" then CondNone else MatchList(header, etag)
  }

  method CheckIfMatch(header: string, etag: string) returns (c: Cond)
    ensures c == IfMatch(header, etag)
  {
    hide Scan, Trim;
    if header == "" {
      return CondNone;
    }
    var im := header;
    while true
      invariant MatchList(im, etag) == MatchList(header, etag)
      decreases |im|
    {
      var t := Trim(HttpSpace, im);
      if |t| == 0 {
        break;
      }
      if t[0] == ',' {
        im := t[1..];
        continue;
      }
      if t[0] == '*' {
        return CondTrue;
      }
      var tag, remain := ScanETag(t);
      if tag == "" {
        break;
      }
      if StrongMatch(tag, etag) {
        return CondTrue;
      }
      im := remain;
    }
    return CondFalse;
  }

  /** The scan of an If-None-Match list: a comma is dropped without looking at what remains. */
  function NoneMatchList(s: string, etag: string): Cond
    decreases |s|, 1
  {
    var t := Trim(HttpSpace, s);
    if t == "" then CondTrue else NoneMatchItem(if t[0] == ',' then t[1..] else t, etag)
  }

  function NoneMatchItem(u: string, etag: string): Cond
    decreases |u|, 0
  {
    if u == "" then Panic
    else if u[0] == '*' then CondFalse
    else
      var (tag, rest) := Scan(u);
      if tag == "" then CondTrue
      else if WeakMatch(tag, etag) then CondFalse
      else NoneMatchList(rest, etag)
  }

  function IfNoneMatch(header: string, etag: string): Cond {
    if header == "" then CondNone else NoneMatchList(header, etag)
  }

  method CheckIfNoneMatch(header: string, etag: string) returns (c: Cond)
    ensures c == IfNoneMatch(header, etag)
  {
    hide Scan, Trim;
    if header == "" {
      return CondNone;
    }
    var buf := header;
    while true
      invariant NoneMatchList(buf, etag) == NoneMatchList(header, etag)
      decreases |buf|
    {
      var t := Trim(HttpSpace, buf);
      if |t| == 0 {
        break;
      }
      if t[0] == ',' {
        t := t[1..];
      }
      if t == "" {
        return Panic;
      }
      if t[0] == '*' {
        return CondFalse;
      }
      var tag, remain := ScanETag(t);
      if tag == "" {
        break;
      }
      if WeakMatch(tag, etag) {
        return CondFalse;
      }
      buf := remain;
    }
    return CondTrue;
  }

  // ----- well-formed lists -----

  type Spaces = s: string | AllSpace(HttpSpace, s) witness ""

  predicate TagBody(s: string) {
    forall i | 0 <= i < |s| :: TagChar(s[i])
  }

  type TagText = s: string | TagBody(s) witness ""

  /** An entity tag; its text may hold commas. */
  datatype Tag = Tag(weak: bool, text: TagText)

  function TagString(t: Tag): string {
    (if t.weak then "W/" else "") + ("\"" + (t.text + "\""))
  }

  datatype Element = Element(pre: Spaces, tag: Tag, post: Spaces)

  /** The tags with commas between them and optional space around them, then whatever follows. */
  function ListText(es: seq<Element>, tail: string): string
    decreases |es|, 0
  {
    if es == [] then tail
    else es[0].pre + (TagString(es[0].tag) + (es[0].post + Rest(es[1..], tail)))
  }

  /** The list after an element. */
  function Rest(es: seq<Element>, tail: string): string
    decreases |es|, 1
  {
    if es == [] then tail else "," + ListText(es, tail)
  }

  predicate AnyStrong(es: seq<Element>, etag: string) {
    exists i | 0 <= i < |es| :: StrongMatch(TagString(es[i].tag), etag)
  }

  predicate AnyWeak(es: seq<Element>, etag: string) {
    exists i | 0 <= i < |es| :: WeakMatch(TagString(es[i].tag), etag)
  }

  // ----- proofs -----

  lemma {:induction false} TagEndFound(pre: string, text: string, rest: string)
    requires TagBody(text)
    ensures TagEnd(pre + (text + ("\"" + rest)), |pre|) == Some(|pre| + |text| + 1)
    decreases |text|
  {
    var s := pre + (text + ("\"" + rest));
    if text == "" {
      assert s[|pre|] == '"';
    } else {
      assert s[|pre|] == text[0];
      TagEndFound(pre + [text[0]], text[1..], rest);
      assert s == (pre + [text[0]]) + (text[1..] + ("\"" + rest));
    }
  }

  lemma TagShape(t: Tag)
    ensures var s := TagString(t);
            && |s| >= 2 && !IsSpace(HttpSpace, s[0]) && !IsSpace(HttpSpace, s[|s| - 1]) && s[0] != ',' && s[0] != '*'
  {
  }

  lemma TagStartOf(t: Tag, rest: string)
    ensures TagStart(TagString(t) + rest) == if t.weak then 2 else 0
  {
    var s := TagString(t) + rest;
    if t.weak {
      assert s == "W/" + ("\"" + (t.text + "\"") + rest);
    } else {
      assert s[0] == '"';
    }
  }

  lemma TagEndOf(t: Tag, rest: string)
    ensures var s, start := TagString(t) + rest, if t.weak then 2 else 0;
            && |s| - start >= 2 && s[start] == '"'
            && TagEnd(s, start + 1) == Some(|TagString(t)|)
  {
    hide TagEnd;
    var open := (if t.weak then "W/" else "") + "\"";
    TagEndFound(open, t.text, rest);
    assert TagString(t) + rest == open + (t.text + ("\"" + rest));
  }

  /** Scanning text with a tag in front takes exactly the tag. */
  lemma ScanTag(pre: string, t: Tag, rest: string)
    requires AllSpace(HttpSpace, pre)
    ensures Scan(pre + (TagString(t) + rest)) == (TagString(t), TrimRight(HttpSpace, rest))
  {
    hide Trim, TrimRight, TagEnd, TagStart, TagString, AllSpace;
    TagShape(t);
    TrimHead(HttpSpace, pre, TagString(t), rest);
    var rest' := TrimRight(HttpSpace, rest);
    var s, n := TagString(t) + rest', |TagString(t)|;
    TagEndOf(t, rest');
    TagStartOf(t, rest');
    assert s[..n] == TagString(t) && s[n..] == rest';
  }

  lemma MatchTrimmed(s: string, etag: string)
    ensures MatchList(TrimRight(HttpSpace, s), etag) == MatchList(s, etag)
    ensures NoneMatchList(TrimRight(HttpSpace, s), etag) == NoneMatchList(s, etag)
    ensures Scan(TrimRight(HttpSpace, s)) == Scan(s)
  {
    hide Trim, TrimRight, TagEnd, TagStart;
    TrimTwice(HttpSpace, s);
  }

  /** What may follow the last element: nothing, or a comma and space. */
  predicate Tail(tail: string) {
    tail == "" || (tail[0] == ',' && AllSpace(HttpSpace, tail[1..]))
  }

  lemma AnyCons(es: seq<Element>, etag: string)
    requires es != []
    ensures AnyStrong(es, etag) <==> StrongMatch(TagString(es[0].tag), etag) || AnyStrong(es[1..], etag)
    ensures AnyWeak(es, etag) <==> WeakMatch(TagString(es[0].tag), etag) || AnyWeak(es[1..], etag)
  {
    hide StrongMatch, WeakMatch, TagString;
    assert forall i | 1 <= i < |es| :: es[i] == es[1..][i - 1];
    assert forall i | 0 <= i < |es[1..]| :: es[1..][i] == es[i + 1];
  }

  lemma TrimSpacesOnly(s: string, etag: string)
    requires AllSpace(HttpSpace, s)
    ensures MatchList(s, etag) == CondFalse && NoneMatchList(s, etag) == CondTrue
  {
    TrimAllSpace(HttpSpace, s);
  }

  /** After an element comes space and a comma, then the next item. */
  lemma CommaNext(post: string, more: string, etag: string)
    requires AllSpace(HttpSpace, post)
    ensures MatchList(post + ("," + more), etag) == MatchList(more, etag)
    ensures NoneMatchList(post + ("," + more), etag) == NoneMatchItem(TrimRight(HttpSpace, more), etag)
  {
    hide TrimRight, TrimLeft, Scan, NoneMatchItem;
    TrimHead(HttpSpace, post, ",", more);
    assert ("," + TrimRight(HttpSpace, more))[1..] == TrimRight(HttpSpace, more);
    MatchTrimmed(more, etag);
  }

  /** If-Match visits the whole list and is true exactly if some tag of it strongly matches. */
  lemma {:induction false} MatchListMeaning(es: seq<Element>, tail: string, etag: string)
    requires Tail(tail)
    ensures MatchList(ListText(es, tail), etag) == (if AnyStrong(es, etag) then CondTrue else CondFalse)
    decreases |es|, 0
  {
    hide Scan, Trim, TrimRight, TagString, StrongMatch;
    if es == [] {
      TailOnly(tail, etag);
    } else {
      var e, rest := es[0], es[0].post + Rest(es[1..], tail);
      ItemStart(e, rest);
      AnyCons(es, etag);
      ScanTag("", e.tag, TrimRight(HttpSpace, rest));
      assert "" + (TagString(e.tag) + TrimRight(HttpSpace, rest)) == TagString(e.tag) + TrimRight(HttpSpace, rest);
      TrimTwice(HttpSpace, rest);
      MatchTrimmed(rest, etag);
      MatchRest(e.post, es[1..], tail, etag);
    }
  }

  lemma TailOnly(tail: string, etag: string)
    requires Tail(tail)
    ensures MatchList(tail, etag) == CondFalse
  {
    if tail == "" {
      TrimSpacesOnly(tail, etag);
    } else {
      assert tail == "" + ("," + tail[1..]);
      CommaNext("", tail[1..], etag);
      TrimSpacesOnly(tail[1..], etag);
    }
  }

  lemma MatchRest(post: string, es: seq<Element>, tail: string, etag: string)
    requires Tail(tail) && AllSpace(HttpSpace, post)
    ensures MatchList(post + Rest(es, tail), etag) == (if AnyStrong(es, etag) then CondTrue else CondFalse)
    decreases |es|, 1
  {
    hide MatchList, ListText;
    if es != [] {
      CommaNext(post, ListText(es, tail), etag);
      MatchListMeaning(es, tail, etag);
    } else if tail == "" {
      assert post + tail == post;
      TrimSpacesOnly(post, etag);
    } else {
      assert tail == "," + tail[1..];
      CommaNext(post, tail[1..], etag);
      TrimSpacesOnly(tail[1..], etag);
    }
  }

  /** An item starts with its tag once the space before it is gone. */
  lemma ItemStart(e: Element, rest: string)
    ensures Trim(HttpSpace, e.pre + (TagString(e.tag) + rest)) == TagString(e.tag) + TrimRight(HttpSpace, rest)
    ensures TagString(e.tag) != "" && (TagString(e.tag) + TrimRight(HttpSpace, rest))[0] != ','
    ensures (TagString(e.tag) + TrimRight(HttpSpace, rest))[0] != '*'
  {
    hide TrimRight;
    TagShape(e.tag);
    TrimHead(HttpSpace, e.pre, TagString(e.tag), rest);
  }

  /** If-None-Match on the items of a list: false exactly if some tag weakly matches; otherwise true,
      or a panic if a comma ends the list. */
  function NoneMatchVerdict(es: seq<Element>, tail: string, etag: string): Cond {
    if AnyWeak(es, etag) then CondFalse else if tail == "" then CondTrue else Panic
  }

  /** A tag in front decides, or the rest does. */
  lemma ItemVerdict(pre: string, tag: Tag, rest: string, etag: string)
    requires AllSpace(HttpSpace, pre)
    ensures var s := pre + (TagString(tag) + rest);
            var verdict := if WeakMatch(TagString(tag), etag) then CondFalse else NoneMatchList(rest, etag);
            NoneMatchList(s, etag) == verdict && NoneMatchItem(TrimRight(HttpSpace, s), etag) == verdict
  {
    hide Scan, Trim, TrimRight, TagString, WeakMatch;
    var e, s := Element(pre, tag, ""), pre + (TagString(tag) + rest);
    ItemStart(e, rest);
    ItemHead(e, rest);
    ScanTag(pre, tag, rest);
    MatchTrimmed(s, etag);
    ScanTag("", tag, TrimRight(HttpSpace, rest));
    assert "" + (TagString(tag) + TrimRight(HttpSpace, rest)) == TagString(tag) + TrimRight(HttpSpace, rest);
    TrimTwice(HttpSpace, rest);
    MatchTrimmed(rest, etag);
  }

  lemma {:induction false} NoneMatchMeaning(es: seq<Element>, tail: string, etag: string)
    requires Tail(tail)
    ensures NoneMatchList(ListText(es, tail), etag) == NoneMatchVerdict(es, tail, etag)
    ensures es != [] ==> NoneMatchItem(TrimRight(HttpSpace, ListText(es, tail)), etag) == NoneMatchVerdict(es, tail, etag)
    decreases |es|, 0
  {
    hide Scan, Trim, TrimRight, TagString, WeakMatch;
    if es == [] {
      assert "" + tail == tail;
      NoneMatchTail("", tail, etag);
    } else {
      var e, rest := es[0], es[0].post + Rest(es[1..], tail);
      AnyCons(es, etag);
      ItemVerdict(e.pre, e.tag, rest, etag);
      NoneMatchRest(e.post, es[1..], tail, etag);
    }
  }

  lemma ItemHead(e: Element, rest: string)
    ensures var u := TrimRight(HttpSpace, e.pre + (TagString(e.tag) + rest)); u != "" && u[0] != '*'
  {
    hide TrimRight;
    TagShape(e.tag);
    var head := e.pre + TagString(e.tag);
    assert e.pre + (TagString(e.tag) + rest) == head + rest;
    TrimRightKeeps(HttpSpace, head, rest);
    assert head[0] != '*';
  }

  lemma NoneMatchRest(post: string, es: seq<Element>, tail: string, etag: string)
    requires Tail(tail) && AllSpace(HttpSpace, post)
    ensures NoneMatchList(post + Rest(es, tail), etag) == NoneMatchVerdict(es, tail, etag)
    decreases |es|, 1
  {
    hide NoneMatchList, ListText;
    if es != [] {
      CommaNext(post, ListText(es, tail), etag);
      NoneMatchMeaning(es, tail, etag);
    } else {
      NoneMatchTail(post, tail, etag);
    }
  }

  lemma NoneMatchTail(post: string, tail: string, etag: string)
    requires Tail(tail) && AllSpace(HttpSpace, post)
    ensures NoneMatchList(post + tail, etag) == if tail == "" then CondTrue else Panic
  {
    hide NoneMatchList;
    if tail == "" {
      assert post + tail == post;
      TrimSpacesOnly(post, etag);
    } else {
      assert tail == "," + tail[1..];
      CommaNext(post, tail[1..], etag);
      TrimAllSpace(HttpSpace, tail[1..]);
    }
  }

  /** Entity-tag lists: for every list of tags with commas between them and optional space, If-Match is
      true exactly if some tag strongly matches the current one, If-None-Match false exactly if some tag
      weakly matches it. */
  lemma ListsMeanTheirTags(es: seq<Element>, etag: string)
    requires es != []
    ensures IfMatch(ListText(es, ""), etag) == (if AnyStrong(es, etag) then CondTrue else CondFalse)
    ensures IfNoneMatch(ListText(es, ""), etag) == (if AnyWeak(es, etag) then CondFalse else CondTrue)
  {
    hide MatchList, NoneMatchList, AnyStrong, AnyWeak;
    ListNotEmpty(es, "");
    MatchListMeaning(es, "", etag);
    NoneMatchMeaning(es, "", etag);
  }

  lemma ListNotEmpty(es: seq<Element>, tail: string)
    requires es != [] || tail != ""
    ensures ListText(es, tail) != ""
  {
    if es != [] {
      TagShape(es[0].tag);
    }
  }

  /** With a comma behind the last tag If-Match is unaffected, and If-None-Match panics exactly if no tag
      of the list weakly matches. */
  lemma TrailingComma(es: seq<Element>, post: Spaces, etag: string)
    ensures var header := ListText(es, "," + post);
            && IfMatch(header, etag) == (if AnyStrong(es, etag) then CondTrue else CondFalse)
            && (IfNoneMatch(header, etag) == Panic <==> !AnyWeak(es, etag))
            && (IfNoneMatch(header, etag) == CondFalse <==> AnyWeak(es, etag))
  {
    hide MatchList, NoneMatchList, AnyStrong, AnyWeak;
    var tail := "," + post;
    assert tail[1..] == post;
    ListNotEmpty(es, tail);
    MatchListMeaning(es, tail, etag);
    NoneMatchMeaning(es, tail, etag);
  }
}
