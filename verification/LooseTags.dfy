/** Exactly which If-None-Match headers run the scan out of its text, among all headers there are. */
module LooseTags {
  import opened Bytes
  import opened Text
  import opened EntityTag

  /** The scan takes a tag with or without a comma before it. */
  datatype Item = Item(pre: Spaces, comma: bool, mid: Spaces, tag: Tag)

  function LooseText(items: seq<Item>, tail: string): string
    decreases |items|
  {
    if items == [] then tail
    else
      var x := items[0];
      x.pre + ((if x.comma then "," else "") + (x.mid + (TagString(x.tag) + LooseText(items[1..], tail))))
  }

  /** Items, and after them a comma with nothing but space around it. */
  function Dangling(items: seq<Item>, post: Spaces, end: Spaces): string {
    LooseText(items, post + ("," + end))
  }

  ghost predicate NoneWeak(items: seq<Item>, etag: string) {
    forall i | 0 <= i < |items| :: !WeakMatch(TagString(items[i].tag), etag)
  }

  /** The header is a loose list of tags that do not match, and a comma that no tag follows. */
  ghost predicate DanglingComma(header: string, etag: string) {
    exists items: seq<Item>, post: Spaces, end: Spaces ::
      header == Dangling(items, post, end) && NoneWeak(items, etag)
  }

  // ----- such a header panics -----

  lemma NoneWeakCons(items: seq<Item>, etag: string)
    requires items != []
    ensures NoneWeak(items, etag) <==> !WeakMatch(TagString(items[0].tag), etag) && NoneWeak(items[1..], etag)
  {
    hide WeakMatch, TagString;
    assert forall i | 1 <= i < |items| :: items[i] == items[1..][i - 1];
    assert forall i | 0 <= i < |items[1..]| :: items[1..][i] == items[i + 1];
  }

  lemma {:induction false} DanglingMeaning(items: seq<Item>, post: Spaces, end: Spaces, etag: string)
    ensures NoneMatchList(Dangling(items, post, end), etag) == if NoneWeak(items, etag) then Panic else CondFalse
    decreases |items|
  {
    hide NoneMatchList, NoneMatchItem, TagString, WeakMatch, NoneWeak;
    if items == [] {
      NothingWeak(etag);
      var tail := "," + end;
      assert tail[1..] == end;
      NoneMatchTail(post, tail, etag);
    } else {
      var x, rest := items[0], Dangling(items[1..], post, end);
      NoneWeakCons(items, etag);
      DanglingMeaning(items[1..], post, end, etag);
      if x.comma {
        CommaNext(x.pre, x.mid + (TagString(x.tag) + rest), etag);
        ItemVerdict(x.mid, x.tag, rest, etag);
      } else {
        assert x.pre + ("" + (x.mid + (TagString(x.tag) + rest))) == (x.pre + x.mid) + (TagString(x.tag) + rest);
        ItemVerdict(x.pre + x.mid, x.tag, rest, etag);
      }
    }
  }

  lemma NothingWeak(etag: string)
    ensures NoneWeak([], etag)
  {
  }

  // ----- only such a header does -----

  lemma {:induction false} TagEndMeaning(s: string, i: nat)
    requires i <= |s| && TagEnd(s, i).Some?
    ensures var n := TagEnd(s, i).value; s[n - 1] == '"' && TagBody(s[i..n - 1])
    decreases |s| - i
  {
    if s[i] != '"' {
      TagEndMeaning(s, i + 1);
      var n := TagEnd(s, i).value;
      assert s[i..n - 1] == [s[i]] + s[i + 1..n - 1];
    } else {
      assert s[i..i] == "";
    }
  }

  /** What a successful scan took: space, a tag, the rest, and space at the end. */
  lemma ScanInverse(u: string) returns (mid: Spaces, tag: Tag, post: Spaces)
    requires Scan(u).0 != ""
    ensures Scan(u).0 == TagString(tag)
    ensures u == mid + (TagString(tag) + (Scan(u).1 + post))
  {
    hide TagEnd, Trim, AllSpace;
    var pre, end := TrimSplit(HttpSpace, u);
    mid, post := pre, end;
    var t := Trim(HttpSpace, u);
    var start := TagStart(t);
    var n := TagEnd(t, start + 1).value;
    TagEndMeaning(t, start + 1);
    tag := Tag(start == 2, t[start + 1..n - 1]);
    assert t[..n] == t[..start] + ([t[start]] + (t[start + 1..n - 1] + [t[n - 1]]));
    assert t == t[..n] + t[n..];
    Regroup(mid, t[..n], t[n..], post);
  }

  lemma Regroup(a: string, b: string, c: string, d: string)
    ensures a + ((b + c) + d) == a + (b + (c + d))
  {
  }

  lemma {:induction false} LooseAppend(items: seq<Item>, tail: string, end: string)
    ensures LooseText(items, tail) + end == LooseText(items, tail + end)
    decreases |items|
  {
    hide TagString;
    if items != [] {
      var x := items[0];
      LooseAppend(items[1..], tail, end);
      RegroupItem(x.pre, if x.comma then "," else "", x.mid, TagString(x.tag), LooseText(items[1..], tail), end);
    }
  }

  lemma RegroupItem(a: string, b: string, c: string, d: string, e: string, f: string)
    ensures a + (b + (c + (d + e))) + f == a + (b + (c + (d + (e + f))))
  {
  }

  /** One more space at the end of a dangling comma. */
  lemma DanglingAppend(items: seq<Item>, post: Spaces, end: Spaces, more: Spaces)
    ensures Dangling(items, post, end) + more == Dangling(items, post, end + more)
  {
    LooseAppend(items, post + ("," + end), more);
    assert post + ("," + end) + more == post + ("," + (end + more));
  }

  /** Taking a panicking text apart. */
  lemma {:induction false} PanicSplit(s: string, etag: string) returns (items: seq<Item>, post: Spaces, end: Spaces)
    requires NoneMatchList(s, etag) == Panic
    ensures s == Dangling(items, post, end) && NoneWeak(items, etag)
    decreases |s|
  {
    hide Scan, TagString, WeakMatch, Trim, Dangling, NoneWeak, IsSpace;
    var pre, trail := TrimSplit(HttpSpace, s);
    var t := Trim(HttpSpace, s);
    var comma := t[0] == ',';
    var u := if comma then t[1..] else t;
    if u == "" {
      items, post, end := [], pre, trail;
      assert t == ",";
      NothingWeak(etag);
      DanglingNone(pre, trail);
    } else {
      var mid, tag, sp := ScanInverse(u);
      var rest := Scan(u).1;
      var more, p, e := PanicSplit(rest, etag);
      var x := Item(pre, comma, mid, tag);
      items, post, end := [x] + more, p, e + (sp + trail);
      assert items[1..] == more;
      NoneWeakCons(items, etag);
      DanglingAppend(more, p, e, sp + trail);
      DanglingCons(x, more, p, end);
      assert t == (if comma then "," else "") + u;
      RegroupSplit(pre, if comma then "," else "", mid, TagString(tag), rest, sp, trail);
    }
  }

  lemma DanglingNone(post: Spaces, end: Spaces)
    ensures Dangling([], post, end) == post + ("," + end)
  {
  }

  lemma DanglingCons(x: Item, more: seq<Item>, post: Spaces, end: Spaces)
    ensures Dangling([x] + more, post, end) ==
            x.pre + ((if x.comma then "," else "") + (x.mid + (TagString(x.tag) + Dangling(more, post, end))))
  {
    hide TagString;
    assert ([x] + more)[1..] == more;
  }

  lemma RegroupSplit(a: string, b: string, c: string, d: string, e: string, f: string, g: string)
    ensures a + ((b + (c + (d + (e + f)))) + g) == a + (b + (c + (d + (e + (f + g)))))
  {
  }

  /** The scan of If-None-Match runs out of its text exactly on the loose lists that end in a comma no tag
      follows and hold no tag that weakly matches. */
  lemma PanicIff(header: string, etag: string)
    ensures IfNoneMatch(header, etag) == Panic <==> DanglingComma(header, etag)
  {
    hide NoneMatchList, NoneWeak, Dangling;
    if IfNoneMatch(header, etag) == Panic {
      var items, post, end := PanicSplit(header, etag);
      assert header == Dangling(items, post, end);
    }
    if DanglingComma(header, etag) {
      var items, post: Spaces, end: Spaces :| header == Dangling(items, post, end) && NoneWeak(items, etag);
      DanglingMeaning(items, post, end, etag);
      EmptyIsFine(etag);
    }
  }

  lemma EmptyIsFine(etag: string)
    ensures NoneMatchList("", etag) == CondTrue
  {
  }

  // ----- a test anyone can make -----

  predicate EndsInComma(header: string) {
    var t := Trim(HttpSpace, header);
    t != "" && t[|t| - 1] == ','
  }

  /** A header whose last character, but for space, is not a comma never panics. */
  lemma NoCommaNoPanic(header: string, etag: string)
    ensures IfNoneMatch(header, etag) == Panic ==> EndsInComma(header)
  {
    hide NoneMatchList, NoneWeak, Dangling;
    if IfNoneMatch(header, etag) == Panic {
      var items, post, end := PanicSplit(header, etag);
      CommaLast(items, post, end);
    }
  }

  lemma CommaLast(items: seq<Item>, post: Spaces, end: Spaces)
    ensures EndsInComma(Dangling(items, post, end))
  {
    hide Trim, TrimLeft, TrimRight, LooseText;
    var head := LooseText(items, post + ",");
    LooseAppend(items, post + ",", end);
    assert post + "," + end == post + ("," + end);
    LastStays(items, post);
    TrimUpTo(HttpSpace, head, end);
  }

  lemma {:induction false} LastStays(items: seq<Item>, post: string)
    ensures var s := LooseText(items, post + ","); s != "" && s[|s| - 1] == ','
    decreases |items|
  {
    hide TagString;
    if items != [] {
      LastStays(items[1..], post);
    }
  }

  /** Trimming text that ends in `end` spaces keeps the last character before them. */
  lemma TrimUpTo(k: SpaceClass, head: string, end: string)
    requires head != "" && !IsSpace(k, head[|head| - 1]) && AllSpace(k, end)
    ensures var t := Trim(k, head + end); t != "" && t[|t| - 1] == head[|head| - 1]
  {
    hide TrimLeft, TrimRight;
    var pre := TrimLeftSplit(k, head);
    var core := TrimLeft(k, head);
    if core == "" {
      assert false;
    }
    assert head + end == pre + (core + end);
    TrimHead(k, pre, core, end);
    TrimAllSpace(k, end);
  }

  /** The comma between tags does not matter: this list of two tags side by side panics, too. */
  lemma SideBySide(a: TagText, b: TagText, etag: string)
    requires !WeakMatch(TagString(Tag(false, a)), etag) && !WeakMatch(TagString(Tag(false, b)), etag)
    ensures var header := TagString(Tag(false, a)) + (TagString(Tag(false, b)) + ",");
            IfNoneMatch(header, etag) == Panic
  {
    hide NoneMatchList, TagString, WeakMatch;
    var x, y := Item("", false, "", Tag(false, a)), Item("", false, "", Tag(false, b));
    var items := [x] + ([y] + []);
    DanglingNone("", "");
    DanglingCons(y, [], "", "");
    DanglingCons(x, [y] + [], "", "");
    assert "" + ("," + "") == ",";
    var header := TagString(Tag(false, a)) + (TagString(Tag(false, b)) + ",");
    assert header == Dangling(items, "", "");
    assert NoneWeak(items, etag);
    PanicIff(header, etag);
  }
}
