/** Names, texts and attributes that the XML parser takes from well-formed UTF-8 are well-formed
    UTF-8. */
module XmlUtf8 {
  import opened Bytes
  import opened Unicode
  import opened XmlText

  // ---------------------------------------------------------------- references

  /** A numeric reference is ASCII. */
  lemma {:induction false} RefAscii(s: bytes)
    requires s != [] && s[0] == AMP && NumericRef(s).Some?
    ensures forall i | 0 <= i < NumericRef(s).v.len :: s[i] < 0x80
  {
  }

  lemma {:induction false} PrefixAscii(s: bytes, t: bytes)
    requires StartsWith(s, t) && IsUtf8(s) && forall i | 0 <= i < |t| :: t[i] < 0x80
    ensures IsUtf8(s[|t|..])
  {
    assert forall i | 0 <= i < |t| :: s[i] == s[..|t|][i];
    AsciiDrop(s, |t|);
  }

  /** A reference stands for well-formed text, and well-formed text follows it. */
  lemma {:induction false} UnitUtf8(s: bytes)
    requires s != [] && s[0] == AMP && IsUtf8(s)
    ensures IsUtf8(FirstUnit(s).out) && IsUtf8(s[FirstUnit(s).len..])
  {
    if StartsWith(s, AMP_REF) {
      PrefixAscii(s, AMP_REF);
    } else if StartsWith(s, LT_REF) {
      PrefixAscii(s, LT_REF);
    } else if StartsWith(s, GT_REF) {
      PrefixAscii(s, GT_REF);
    } else if StartsWith(s, QUOT_REF) {
      PrefixAscii(s, QUOT_REF);
    } else if StartsWith(s, APOS_REF) {
      PrefixAscii(s, APOS_REF);
    } else if NumericRef(s).Some? {
      RefAscii(s);
      AsciiDrop(s, NumericRef(s).v.len);
      Utf8Read(NumericRef(s).v.cp);
    }
    if !NumericRef(s).Some? || FirstUnit(s).out == [AMP] { ReadFour(Start, FirstUnit(s).out); }
  }

  /** Decoding goes through a character as it is, and references are whole characters. */
  lemma {:induction false} DecodeUtf8(u: Expect, s: bytes)
    requires Read(u, s) == Start
    ensures Read(u, Decode(s)) == Start
    decreases |s|
  {
    if s != [] {
      var unit := FirstUnit(s);
      var rest := s[unit.len..];
      if s[0] == AMP {
        AsciiHere(u, s);
        UnitUtf8(s);
        DecodeUtf8(Start, rest);
      } else {
        DecodeUtf8(Next(u, s[0]), rest);
        ReadFour(u, unit.out);
      }
      ReadBoth(u, unit.out, Decode(rest));
    }
  }

  // ---------------------------------------------------------------- the parser

  lemma {:induction false} UpToUtf8(u: Expect, s: bytes, b: byte)
    requires Read(u, s) == Start && b < 0x80 && UpTo(s, b).Got?
    ensures Read(u, UpTo(s, b).v) == Start && IsUtf8(UpTo(s, b).rest)
    decreases |s|
  {
    if s[0] == b {
      AsciiHere(u, s);
    } else {
      UpToUtf8(Next(u, s[0]), s[1..], b);
      Cons(s[0], UpTo(s[1..], b).v);
    }
  }

  lemma {:induction false} PastUtf8(u: Expect, s: bytes, t: bytes)
    requires Read(u, s) == Start && t != [] && (forall i | 0 <= i < |t| :: t[i] < 0x80) && Past(s, t).Some?
    ensures IsUtf8(Past(s, t).v)
    decreases |s|
  {
    if StartsWith(s, t) {
      assert s[0] == s[..|t|][0];
      AsciiHere(u, s);
      PrefixAscii(s, t);
    } else {
      PastUtf8(Next(u, s[0]), s[1..], t);
    }
  }

  lemma {:induction false} NameUtf8(s: bytes)
    requires IsUtf8(s) && Name(s).Got?
    ensures IsUtf8(Name(s).v) && IsUtf8(Name(s).rest) && forall i | 0 <= i < |Name(s).v| :: Name(s).v[i] < 0x80
  {
    var n := NameEnd(s, 1);
    assert forall i | 0 <= i < n :: s[i] < 0x80;
    AsciiUtf8(s[..n]);
    AsciiDrop(s, n);
  }

  /** All names, texts, keys and values in a tree are well-formed. */
  predicate AllUtf8(e: Element) {
    IsUtf8(e.name) && IsUtf8(e.text) && AttrsUtf8(e.attrs) && forall i | 0 <= i < |e.children| :: AllUtf8(e.children[i])
  }

  predicate AttrsUtf8(attrs: seq<Entry<bytes>>) {
    forall i | 0 <= i < |attrs| :: IsUtf8(attrs[i].key) && IsUtf8(attrs[i].value)
  }

  lemma {:induction false} ValueUtf8(s: bytes)
    requires IsUtf8(s) && AttrValue(s).Got?
    ensures IsUtf8(AttrValue(s).v) && IsUtf8(AttrValue(s).rest)
  {
    var t := SkipSpaces(s);
    SpacesDrop(s);
    UpToUtf8(Start, t[1..], t[0]);
    DecodeUtf8(Start, UpTo(t[1..], t[0]).v);
  }

  lemma {:induction false} PutUtf8(acc: seq<Entry<bytes>>, key: bytes, v: bytes)
    requires AttrsUtf8(acc) && IsUtf8(key) && IsUtf8(v)
    ensures AttrsUtf8(Put(acc, key, v))
  {
    var put := Put(acc, key, v);
    forall i | 0 <= i < |put| ensures IsUtf8(put[i].key) && IsUtf8(put[i].value) {
      PutFrom(acc, key, v, i);
    }
  }

  lemma {:induction false} TagUtf8(s: bytes, acc: seq<Entry<bytes>>)
    requires IsUtf8(s) && AttrsUtf8(acc) && Attrs(s, acc).Got?
    ensures AttrsUtf8(Attrs(s, acc).v.attrs) && IsUtf8(Attrs(s, acc).rest)
    decreases |s|
  {
    var t := SkipSpaces(s);
    SpacesDrop(s);
    if t[0] == SLASH {
      AsciiDrop(t, 2);
    } else if t[0] != GT {
      NameUtf8(t);
      var u := SkipSpaces(Name(t).rest);
      SpacesDrop(Name(t).rest);
      ValueUtf8(u[1..]);
      PutUtf8(acc, Name(t).v, AttrValue(u[1..]).v);
      TagUtf8(AttrValue(u[1..]).rest, Put(acc, Name(t).v, AttrValue(u[1..]).v));
    }
  }

  lemma {:induction false} TextUtf8(s: bytes)
    requires IsUtf8(s) && Text(s).Got?
    ensures IsUtf8(Text(s).v) && IsUtf8(Text(s).rest)
  {
    SpacesDrop(s);
    UpToUtf8(Start, SkipSpaces(s), LT);
  }

  lemma {:induction false} ElementUtf8(s: bytes, depth: nat)
    requires s != [] && s[0] == LT && IsUtf8(s) && ElementAt(s, depth).Got?
    ensures AllUtf8(ElementAt(s, depth).v) && IsUtf8(ElementAt(s, depth).rest)
    decreases |s|, 1
  {
    NameUtf8(s[1..]);
    BodyUtf8(Name(s[1..]).rest, Name(s[1..]).v, depth);
  }

  lemma {:induction false} BodyUtf8(s: bytes, name: bytes, depth: nat)
    requires IsUtf8(s) && AfterName(s, name, depth).Got? && forall i | 0 <= i < |name| :: name[i] < 0x80
    ensures AllUtf8(AfterName(s, name, depth).v) && IsUtf8(AfterName(s, name, depth).rest)
    decreases |s|, 1
  {
    AsciiUtf8(name);
    TagUtf8(s, []);
    var tag := Attrs(s, []);
    if !tag.v.empty {
      TextUtf8(tag.rest);
      DecodeUtf8(Start, Text(tag.rest).v);
      ChildrenUtf8(Text(tag.rest).rest, name, depth, []);
    }
  }

  lemma {:induction false} EndUtf8(t: bytes, name: bytes)
    requires IsUtf8(t) && StartsWith(t, EndTag(name)) && forall i | 0 <= i < |name| :: name[i] < 0x80
    ensures IsUtf8(t[|EndTag(name)|..])
  {
    PrefixAscii(t, EndTag(name));
  }

  lemma {:induction false} ChildrenUtf8(s: bytes, name: bytes, depth: nat, acc: seq<Element>)
    requires IsUtf8(s) && Children(s, name, depth, acc).Got? && forall i | 0 <= i < |name| :: name[i] < 0x80
    requires forall i | 0 <= i < |acc| :: AllUtf8(acc[i])
    ensures IsUtf8(Children(s, name, depth, acc).rest)
    ensures forall i | 0 <= i < |Children(s, name, depth, acc).v| :: AllUtf8(Children(s, name, depth, acc).v[i])
    decreases |s|, 2
  {
    var t := SkipSpaces(s);
    SpacesDrop(s);
    if t[1] == SLASH {
      EndUtf8(t, name);
    } else if StartsWith(t, COMMENT_OPEN) {
      PrefixAscii(t, COMMENT_OPEN);
      PastUtf8(Start, t[4..], COMMENT_CLOSE);
      ChildrenUtf8(Past(t[4..], COMMENT_CLOSE).v, name, depth, acc);
    } else {
      ElementUtf8(t, depth + 1);
      var child := ElementAt(t, depth + 1);
      TextUtf8(child.rest);
      ChildrenUtf8(Text(child.rest).rest, name, depth, acc + [child.v]);
    }
  }

  lemma {:induction false} MiscUtf8(s: bytes)
    requires IsUtf8(s) && Misc(s).Some?
    ensures IsUtf8(Misc(s).v)
    decreases |s|
  {
    if StartsWith(s, COMMENT_OPEN) {
      PrefixAscii(s, COMMENT_OPEN);
      PastUtf8(Start, s[4..], COMMENT_CLOSE);
      SpacesDrop(Past(s[4..], COMMENT_CLOSE).v);
      MiscUtf8(SkipSpaces(Past(s[4..], COMMENT_CLOSE).v));
    } else if |s| > 1 && s[0] == LT && s[1] == QUESTION {
      PastUtf8(Start, s, PI_CLOSE);
      SpacesDrop(Past(s, PI_CLOSE).v);
      MiscUtf8(SkipSpaces(Past(s, PI_CLOSE).v));
    }
  }

  lemma {:induction false} BomUtf8(s: bytes)
    requires IsUtf8(s) && StartsWith(s, BOM)
    ensures IsUtf8(s[3..])
  {
    assert s == s[..3] + s[3..];
    ReadBoth(Start, s[..3], s[3..]);
    ReadFour(Start, BOM);
  }

  /** From a well-formed document only well-formed names, texts, keys and values are returned. */
  lemma {:induction false} DocumentUtf8(s: bytes)
    requires IsUtf8(s) && Document(s).Some?
    ensures AllUtf8(Document(s).v)
  {
    if StartsWith(s, BOM) { BomUtf8(s); }
    var t := if StartsWith(s, BOM) then s[3..] else s;
    SpacesDrop(t);
    MiscUtf8(SkipSpaces(t));
    ElementUtf8(Misc(SkipSpaces(t)).v, 0);
  }
}
