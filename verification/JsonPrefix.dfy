/** Parsing looks no further than it must, so no strict prefix of an object is a text. */
module JsonPrefix {
  import opened Bytes
  import opened Json
  import Utf8

  lemma {:induction false} SkipSpaceExtends(s: seq<byte>, t: seq<byte>)
    requires SkipSpace(s) != []
    ensures SkipSpace(s + t) == SkipSpace(s) + t
    decreases |s|
  {
    if s != [] && IsSpace(s[0]) {
      SkipSpaceExtends(s[1..], t);
      assert (s + t)[1..] == s[1..] + t;
    }
  }

  /** A string literal that was parsed had its closing quote. */
  lemma {:induction false} QuoteSeen(s: seq<byte>) returns (i: nat)
    requires ParseString(s).Some?
    ensures i < |s| && s[i] == QUOTE
    decreases |s|
  {
    if s[0] == QUOTE {
      i := 0;
    } else {
      var len := NextPiece(s).value.len;
      var j := QuoteSeen(s[len..]);
      i := len + j;
    }
  }

  lemma UnicodeUnitExtends(s: seq<byte>, t: seq<byte>, i: nat)
    requires i < |s| && s[i] == QUOTE
    ensures UnicodeUnit(s + t) == UnicodeUnit(s)
  {
    assert forall j | 0 <= j < |s| :: (s + t)[j] == s[j];
    if |s| < 6 {
      assert (s + t)[i] == QUOTE;
    }
  }

  lemma EscapeExtends(s: seq<byte>, t: seq<byte>, i: nat)
    requires i < |s| && s[i] == QUOTE && s[0] == BACKSLASH && NextPiece(s).Some?
    ensures NextPiece(s + t) == NextPiece(s)
  {
    hide Utf8.EncodeRune, Utf8.Decoded, Utf8.Advance;
    UnicodeUnitExtends(s, t, i);
    if Unescape(s[1]).None? {
      assert i >= 6;
      UnicodeUnitExtends(s[6..], t, i - 6);
      assert (s + t)[6..] == s[6..] + t;
    }
  }

  lemma NextPieceExtends(s: seq<byte>, t: seq<byte>, i: nat)
    requires i < |s| && s[i] == QUOTE && s[0] != QUOTE && NextPiece(s).Some?
    ensures NextPiece(s + t) == NextPiece(s)
  {
    if s[0] == BACKSLASH {
      EscapeExtends(s, t, i);
    } else {
      hide UnicodeUnit, Utf8.EncodeRune, Utf8.RuneLen;
      Utf8.RuneLenExtends(s, t, i);
      assert (s + t)[..Utf8.RuneLen(s)] == s[..Utf8.RuneLen(s)];
    }
  }

  lemma {:induction false} ParseStringExtends(s: seq<byte>, t: seq<byte>)
    requires ParseString(s).Some?
    ensures ParseString(s + t) == Some((ParseString(s).value.0, ParseString(s).value.1 + t))
    decreases |s|
  {
    var i := QuoteSeen(s);
    if s[0] == QUOTE {
      assert (s + t)[1..] == s[1..] + t;
    } else {
      NextPieceExtends(s, t, i);
      var len := NextPiece(s).value.len;
      ParseStringExtends(s[len..], t);
      assert (s + t)[len..] == s[len..] + t;
    }
  }

  lemma {:induction false} DigitRunExtends(s: seq<byte>, t: seq<byte>)
    requires DigitRun(s) < |s|
    ensures DigitRun(s + t) == DigitRun(s)
    decreases |s|
  {
    if IsDigit(s[0]) {
      DigitRunExtends(s[1..], t);
      assert (s + t)[1..] == s[1..] + t;
    }
  }

  lemma DropOfSum(s: seq<byte>, t: seq<byte>, k: nat)
    requires k <= |s|
    ensures (s + t)[k..] == s[k..] + t
  {
  }

  lemma ExpLenExtends(s: seq<byte>, t: seq<byte>)
    requires ExpLen(s).Some? && ExpLen(s).value < |s|
    ensures ExpLen(s + t) == ExpLen(s)
  {
    hide DigitRun;
    if s[0] == 0x65 || s[0] == 0x45 {
      var sign := if |s| >= 2 && (s[1] == 0x2B || s[1] == 0x2D) then 1 else 0;
      DropOfSum(s, t, 1 + sign);
      DigitRunExtends(s[1 + sign..], t);
    }
  }

  lemma FracLenExtends(s: seq<byte>, t: seq<byte>)
    requires FracLen(s).Some? && FracLen(s).value < |s|
    ensures FracLen(s + t) == FracLen(s)
  {
    if s[0] == 0x2E {
      DropOfSum(s, t, 1);
      DigitRunExtends(s[1..], t);
    }
  }

  lemma TailLenExtends(s: seq<byte>, t: seq<byte>)
    requires TailLen(s).Some? && TailLen(s).value < |s|
    ensures TailLen(s + t) == TailLen(s)
  {
    hide FracLen, ExpLen;
    FracLenExtends(s, t);
    var frac := FracLen(s).value;
    DropOfSum(s, t, frac);
    ExpLenExtends(s[frac..], t);
  }

  lemma UnsignedLenExtends(s: seq<byte>, t: seq<byte>)
    requires UnsignedLen(s).Some? && UnsignedLen(s).value < |s|
    ensures UnsignedLen(s + t) == UnsignedLen(s)
  {
    hide TailLen;
    if s[0] != 0x30 {
      DigitRunExtends(s, t);
    }
    assert IntLen(s + t) == IntLen(s);
    DropOfSum(s, t, IntLen(s));
    TailLenExtends(s[IntLen(s)..], t);
  }

  /** A number that something follows is the same number in a longer text. */
  lemma NumberLenExtends(s: seq<byte>, t: seq<byte>)
    requires NumberLen(s).Some? && NumberLen(s).value < |s|
    ensures NumberLen(s + t) == NumberLen(s)
  {
    hide UnsignedLen;
    if s[0] == 0x2D {
      DropOfSum(s, t, 1);
      UnsignedLenExtends(s[1..], t);
    } else {
      UnsignedLenExtends(s, t);
    }
  }

  lemma LiteralExtends(s: seq<byte>, t: seq<byte>)
    requires s != []
    requires LiteralAt(s).Some? || NumberLen(s).Some?
    ensures LiteralAt(s + t) == LiteralAt(s)
  {
    assert (s + t)[0] == s[0];
    if LiteralAt(s).Some? {
      assert LiteralAt(s).value <= s + t;
    } else if NumberLen(s).Some? {
      assert s[0] == 0x2D || IsDigit(s[0]);
    }
  }

  /** More text after a parsed value leaves the value alone, unless it was a number cut off by the end. */
  lemma {:induction false} ParseValueExtends(s: seq<byte>, t: seq<byte>)
    requires ParseValue(s).Some?
    requires ParseValue(s).value.0.Number? ==> ParseValue(s).value.1 != []
    ensures ParseValue(s + t) == Some((ParseValue(s).value.0, ParseValue(s).value.1 + t))
    decreases |s|, 1
  {
    assert (s + t)[0] == s[0];
    DropOfSum(s, t, 1);
    if s[0] == OPEN_BRACE {
      ParseObjectExtends(s, t);
    } else if s[0] == OPEN_BRACKET {
      ParseArrayExtends(s, t);
    } else if s[0] == QUOTE {
      ParseStringExtends(s[1..], t);
    } else {
      LiteralExtends(s, t);
      if LiteralAt(s).Some? {
        DropOfSum(s, t, |LiteralAt(s).value|);
      } else {
        NumberLenExtends(s, t);
        DropOfSum(s, t, NumberLen(s).value);
        assert (s + t)[..NumberLen(s).value] == s[..NumberLen(s).value];
      }
    }
  }

  lemma {:induction false} ParseObjectExtends(s: seq<byte>, t: seq<byte>)
    requires s != [] && s[0] == OPEN_BRACE && ParseValue(s).Some?
    ensures ParseValue(s + t) == Some((ParseValue(s).value.0, ParseValue(s).value.1 + t))
    decreases |s|, 0
  {
    DropOfSum(s, t, 1);
    var after := SkipSpace(s[1..]);
    SkipSpaceExtends(s[1..], t);
    if after[0] == CLOSE_BRACE {
      DropOfSum(after, t, 1);
    } else {
      ParseMembersExtends(after, t);
    }
  }

  lemma {:induction false} ParseArrayExtends(s: seq<byte>, t: seq<byte>)
    requires s != [] && s[0] == OPEN_BRACKET && ParseValue(s).Some?
    ensures ParseValue(s + t) == Some((ParseValue(s).value.0, ParseValue(s).value.1 + t))
    decreases |s|, 0
  {
    DropOfSum(s, t, 1);
    var after := SkipSpace(s[1..]);
    SkipSpaceExtends(s[1..], t);
    if after[0] == CLOSE_BRACKET {
      DropOfSum(after, t, 1);
    } else {
      ParseElementsExtends(after, t);
    }
  }

  lemma {:induction false} ParseMemberExtends(s: seq<byte>, t: seq<byte>)
    requires ParseMember(s).Some? && ParseMember(s).value.1 != []
    ensures ParseMember(s + t) == Some((ParseMember(s).value.0, ParseMember(s).value.1 + t))
    decreases |s|, 0
  {
    DropOfSum(s, t, 1);
    ParseStringExtends(s[1..], t);
    var tail := ParseString(s[1..]).value.1;
    var rest := SkipSpace(tail);
    SkipSpaceExtends(tail, t);
    DropOfSum(rest, t, 1);
    SkipSpaceExtends(rest[1..], t);
    ParseValueExtends(SkipSpace(rest[1..]), t);
  }

  lemma {:induction false} ParseMembersExtends(s: seq<byte>, t: seq<byte>)
    requires ParseMembers(s).Some?
    ensures ParseMembers(s + t) == Some((ParseMembers(s).value.0, ParseMembers(s).value.1 + t))
    decreases |s|, 1
  {
    ParseMemberExtends(s, t);
    var tail := ParseMember(s).value.1;
    var rest := SkipSpace(tail);
    SkipSpaceExtends(tail, t);
    DropOfSum(rest, t, 1);
    if rest[0] == COMMA {
      SkipSpaceExtends(rest[1..], t);
      ParseMembersExtends(SkipSpace(rest[1..]), t);
    }
  }

  lemma {:induction false} ParseElementsExtends(s: seq<byte>, t: seq<byte>)
    requires ParseElements(s).Some?
    ensures ParseElements(s + t) == Some((ParseElements(s).value.0, ParseElements(s).value.1 + t))
    decreases |s|, 2
  {
    ParseValueExtends(s, t);
    var tail := ParseValue(s).value.1;
    var rest := SkipSpace(tail);
    SkipSpaceExtends(tail, t);
    DropOfSum(rest, t, 1);
    if rest[0] == COMMA {
      SkipSpaceExtends(rest[1..], t);
      ParseElementsExtends(SkipSpace(rest[1..]), t);
    }
  }

  /** No strict prefix of an object is itself a JSON text. */
  lemma ObjectsArePrefixFree(s: seq<byte>, q: seq<byte>)
    requires s != [] && s[0] == OPEN_BRACE && ParseValue(s).Some? && ParseValue(s).value.1 == []
    requires q < s
    ensures ParseText(q).None?
  {
    if ParseText(q).Some? {
      assert q != [] && q[0] == s[0];
      var t := s[|q|..];
      assert s == q + t;
      ParseObjectExtends(q, t);
      assert false;
    }
  }
}
