/** The string helpers the header parsers are written with. */
module Text {
  /** Two notions of white space: the one of `strings.TrimSpace`, and the one of HTTP header fields. */
  datatype SpaceClass = UnicodeSpace | HttpSpace

  predicate IsSpace(k: SpaceClass, c: char) {
    match k
    case HttpSpace => c == ' ' || c == '\t' || c == '\n' || c == '\r'
    case UnicodeSpace =>
      || '\t' <= c <= '\r' || c == ' ' || c == '\U{85}' || c == '\U{A0}' || c == '\U{1680}'
      || '\U{2000}' <= c <= '\U{200A}' || c == '\U{2028}' || c == '\U{2029}' || c == '\U{202F}'
      || c == '\U{205F}' || c == '\U{3000}'
  }

  function TrimLeft(k: SpaceClass, s: string): (r: string)
    ensures |r| <= |s|
    ensures r == "" || !IsSpace(k, r[0])
  {
    if s != "" && IsSpace(k, s[0]) then TrimLeft(k, s[1..]) else s
  }

  function TrimRight(k: SpaceClass, s: string): (r: string)
    ensures r <= s
    ensures r == "" || !IsSpace(k, r[|r| - 1])
  {
    if s != "" && IsSpace(k, s[|s| - 1]) then TrimRight(k, s[..|s| - 1]) else s
  }

  function Trim(k: SpaceClass, s: string): (r: string)
    ensures |r| <= |s|
  {
    TrimRight(k, TrimLeft(k, s))
  }

  function TrimSpace(s: string): string {
    Trim(UnicodeSpace, s)
  }

  predicate AllSpace(k: SpaceClass, s: string) {
    forall i | 0 <= i < |s| :: IsSpace(k, s[i])
  }

  /** Text that starts and ends with something else than space. */
  predicate Tight(k: SpaceClass, s: string) {
    s == "" || (!IsSpace(k, s[0]) && !IsSpace(k, s[|s| - 1]))
  }

  lemma {:induction false} TrimLeftSpaces(k: SpaceClass, pre: string, s: string)
    requires AllSpace(k, pre)
    ensures TrimLeft(k, pre + s) == TrimLeft(k, s)
    decreases |pre|
  {
    if pre == "" {
      assert pre + s == s;
    } else {
      assert (pre + s)[1..] == pre[1..] + s;
      TrimLeftSpaces(k, pre[1..], s);
    }
  }

  lemma {:induction false} TrimRightSpaces(k: SpaceClass, s: string, post: string)
    requires AllSpace(k, post)
    ensures TrimRight(k, s + post) == TrimRight(k, s)
    decreases |post|
  {
    if post == "" {
      assert s + post == s;
    } else {
      assert (s + post)[..|s + post| - 1] == s + post[..|post| - 1];
      TrimRightSpaces(k, s, post[..|post| - 1]);
    }
  }

  /** Trimming removes exactly the space around tight text. */
  lemma TrimAround(k: SpaceClass, pre: string, s: string, post: string)
    requires AllSpace(k, pre) && AllSpace(k, post) && Tight(k, s)
    ensures Trim(k, pre + s + post) == s
  {
    hide TrimLeft, TrimRight;
    assert pre + s + post == pre + (s + post);
    TrimLeftSpaces(k, pre, s + post);
    if s == "" {
      assert s + post == post;
      TrimLeftSpaces(k, post, "");
      assert post + "" == post;
    } else {
      TrimRightSpaces(k, s, post);
    }
    TightUntrimmed(k, s, s + post);
  }

  lemma TightUntrimmed(k: SpaceClass, s: string, t: string)
    requires Tight(k, s) && s <= t
    ensures TrimRight(k, s) == s && TrimLeft(k, "") == ""
    ensures s != "" ==> TrimLeft(k, t) == t
  {
  }

  lemma {:induction false} TrimRightKeeps(k: SpaceClass, head: string, s: string)
    requires head != "" && !IsSpace(k, head[|head| - 1])
    ensures TrimRight(k, head + s) == head + TrimRight(k, s)
    decreases |s|
  {
    if s == "" {
      assert head + s == head;
    } else if IsSpace(k, s[|s| - 1]) {
      assert (head + s)[..|head + s| - 1] == head + s[..|s| - 1];
      TrimRightKeeps(k, head, s[..|s| - 1]);
    }
  }

  /** Space in front goes, a tight head stays, and only the end of the tail is trimmed. */
  lemma TrimHead(k: SpaceClass, pre: string, head: string, s: string)
    requires AllSpace(k, pre) && head != "" && !IsSpace(k, head[0]) && !IsSpace(k, head[|head| - 1])
    ensures Trim(k, pre + (head + s)) == head + TrimRight(k, s)
  {
    hide TrimRight;
    TrimLeftSpaces(k, pre, head + s);
    assert (head + s)[0] == head[0];
    TrimRightKeeps(k, head, s);
  }

  lemma {:induction false} TrimAllSpace(k: SpaceClass, s: string)
    requires AllSpace(k, s)
    ensures TrimLeft(k, s) == "" && TrimRight(k, s) == "" && Trim(k, s) == ""
    decreases |s|
  {
    if s != "" {
      TrimAllSpace(k, s[1..]);
      TrimAllSpace(k, s[..|s| - 1]);
    }
  }

  lemma {:induction false} TrimLeftSplit(k: SpaceClass, s: string) returns (pre: string)
    ensures AllSpace(k, pre) && s == pre + TrimLeft(k, s)
    decreases |s|
  {
    if s != "" && IsSpace(k, s[0]) {
      var p := TrimLeftSplit(k, s[1..]);
      pre := [s[0]] + p;
    } else {
      pre := "";
    }
  }

  lemma {:induction false} TrimRightSplit(k: SpaceClass, s: string) returns (post: string)
    ensures AllSpace(k, post) && s == TrimRight(k, s) + post
    decreases |s|
  {
    if s != "" && IsSpace(k, s[|s| - 1]) {
      var p := TrimRightSplit(k, s[..|s| - 1]);
      post := p + [s[|s| - 1]];
      assert TrimRight(k, s) + post == (TrimRight(k, s) + p) + [s[|s| - 1]];
    } else {
      post := "";
    }
  }

  lemma TrimSplit(k: SpaceClass, s: string) returns (pre: string, post: string)
    ensures AllSpace(k, pre) && AllSpace(k, post) && s == pre + (Trim(k, s) + post)
  {
    pre := TrimLeftSplit(k, s);
    post := TrimRightSplit(k, TrimLeft(k, s));
  }

  /** A space at the end makes no difference to the trimmed text. */
  lemma TrimDropLast(k: SpaceClass, s: string)
    requires s != "" && IsSpace(k, s[|s| - 1])
    ensures Trim(k, s) == Trim(k, s[..|s| - 1])
  {
    var init, last := s[..|s| - 1], s[|s| - 1];
    var pre := TrimLeftSplit(k, init);
    var core := TrimLeft(k, init);
    assert s == pre + (core + [last]);
    TrimLeftSpaces(k, pre, core + [last]);
    if core == "" {
      assert core + [last] == [last];
      TrimAllSpace(k, [last]);
    } else {
      assert (core + [last])[0] == core[0];
      assert (core + [last])[..|core|] == core;
    }
  }

  lemma {:induction false} TrimTwice(k: SpaceClass, s: string)
    ensures Trim(k, TrimRight(k, s)) == Trim(k, s)
    ensures TrimRight(k, TrimRight(k, s)) == TrimRight(k, s)
    decreases |s|
  {
    if s != "" && IsSpace(k, s[|s| - 1]) {
      TrimDropLast(k, s);
      TrimTwice(k, s[..|s| - 1]);
    }
  }

  /** The pieces between the separators; a text without any is one piece. */
  function Split(s: string, sep: char): (parts: seq<string>)
    ensures parts != []
  {
    SplitFrom(s, sep, 0)
  }

  /** The pieces of `s` whose first `n` characters hold no separator. */
  function SplitFrom(s: string, sep: char, n: nat): (parts: seq<string>)
    requires n <= |s|
    ensures parts != []
    decreases |s|, |s| - n
  {
    if n == |s| then [s]
    else if s[n] == sep then [s[..n]] + SplitFrom(s[n + 1..], sep, 0)
    else SplitFrom(s, sep, n + 1)
  }

  function Join(parts: seq<string>, sep: char): string
    requires parts != []
  {
    if |parts| == 1 then parts[0] else parts[0] + ([sep] + Join(parts[1..], sep))
  }

  lemma {:induction false} SplitAt(first: string, rest: string, sep: char, n: nat)
    requires n <= |first| && sep !in first
    ensures SplitFrom(first + ([sep] + rest), sep, n) == [first] + SplitFrom(rest, sep, 0)
    decreases |first| - n
  {
    var s := first + ([sep] + rest);
    if n == |first| {
      assert s[..n] == first && s[n + 1..] == rest;
    } else {
      assert s[n] == first[n];
      SplitAt(first, rest, sep, n + 1);
    }
  }

  lemma {:induction false} SplitNone(s: string, sep: char, n: nat)
    requires n <= |s| && sep !in s
    ensures SplitFrom(s, sep, n) == [s]
    decreases |s| - n
  {
    if n < |s| {
      SplitNone(s, sep, n + 1);
    }
  }

  /** Splitting undoes joining pieces that hold no separator. */
  lemma {:induction false} SplitJoin(parts: seq<string>, sep: char)
    requires parts != [] && forall i | 0 <= i < |parts| :: sep !in parts[i]
    ensures Split(Join(parts, sep), sep) == parts
    decreases |parts|
  {
    if |parts| == 1 {
      SplitNone(parts[0], sep, 0);
    } else {
      SplitJoin(parts[1..], sep);
      SplitAt(parts[0], Join(parts[1..], sep), sep, 0);
    }
  }

  /** Position of the first `c`, or the length if there is none. */
  function Find(s: string, c: char): (n: nat)
    ensures n <= |s|
    ensures forall i | 0 <= i < n :: s[i] != c
    ensures n < |s| ==> s[n] == c
  {
    if s == "" || s[0] == c then 0 else 1 + Find(s[1..], c)
  }

  lemma FindUnique(s: string, c: char, n: nat)
    requires n < |s| && s[n] == c && forall i | 0 <= i < n :: s[i] != c
    ensures Find(s, c) == n
  {
  }
}
