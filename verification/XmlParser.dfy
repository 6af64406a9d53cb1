/** The XML parser, with its cursor, and what it returns. */
module XmlParser {
  import opened Bytes
  import opened XmlText
  import XmlExact
  import G = XmlGrammar

  // ---------------------------------------------------------------- references

  /** The accumulation of decode_numeric_ref, which stops once the value is out of range. */
  function Capped(s: bytes, i: nat, j: nat, hex: bool): (n: nat)
    requires i <= j <= |s| && forall k | i <= k < j :: Digit(s[k], hex) >= 0
    decreases j
  {
    if i == j then 0
    else
      var n := Capped(s, i, j - 1, hex);
      if n <= 0x10FFFF then n * (if hex then 16 else 10) + Digit(s[j - 1], hex) else n
  }

  /** It is exact as long as it matters, for runs of digits of every length. */
  lemma {:induction false} CappedExact(s: bytes, i: nat, j: nat, hex: bool)
    requires i <= j <= |s| && forall k | i <= k < j :: Digit(s[k], hex) >= 0
    ensures RunValue(s, i, j, hex) <= 0x10FFFF ==> Capped(s, i, j, hex) == RunValue(s, i, j, hex)
    ensures RunValue(s, i, j, hex) > 0x10FFFF ==> Capped(s, i, j, hex) > 0x10FFFF
    decreases j
  {
    if i < j { CappedExact(s, i, j - 1, hex); }
  }

  /** The loop of decode_numeric_ref. */
  method ReadRun(s: bytes, start: nat, hex: bool) returns (j: nat, cp: nat)
    requires start <= |s|
    ensures j == DigitEnd(s, start, hex) && cp == Capped(s, start, j, hex)
  {
    j, cp := start, 0;
    while j < |s|
      invariant start <= j <= |s| && forall k | start <= k < j :: Digit(s[k], hex) >= 0
      invariant cp == Capped(s, start, j, hex)
      invariant DigitEnd(s, j, hex) == DigitEnd(s, start, hex)
    {
      var digit := Digit(s[j], hex);
      if digit < 0 { break; }
      if cp <= 0x10FFFF { cp := cp * (if hex then 16 else 10) + digit; }
      j := j + 1;
    }
  }

  /** decode_numeric_ref: the number of bytes consumed, or 0. */
  method DecodeNumericRef(s: bytes, i: nat, out: bytes) returns (consumed: nat, out': bytes)
    requires i < |s|
    ensures match NumericRef(s[i..])
            case None => consumed == 0 && out' == out
            case Some(ref) => consumed == ref.len && out' == out + Utf8(ref.cp)
  {
    consumed, out' := 0, out;
    ghost var t := s[i..];
    if i + 1 >= |s| || s[i + 1] != HASH { return; }
    var j, hex := i + 2, false;
    if j < |s| && (s[j] == 0x78 || s[j] == 0x58) {
      hex, j := true, j + 1;
    }
    var start, cp := j, 0;
    j, cp := ReadRun(s, start, hex);
    RefShift(s, i, start, j, hex);
    CappedExact(s, start, j, hex);
    if j == start || j >= |s| || s[j] != SEMI { return; }
    if cp == 0 || cp > 0x10FFFF || IsHigh(cp) || IsLow(cp) { return; }
    out' := out + Utf8(cp);
    consumed := j + 1 - i;
  }

  lemma {:induction false} EndShift(s: bytes, i: nat, k: nat, hex: bool)
    requires i <= k <= |s|
    ensures DigitEnd(s[i..], k - i, hex) == DigitEnd(s, k, hex) - i
    decreases |s| - k
  {
    if k < |s| && Digit(s[k], hex) >= 0 { EndShift(s, i, k + 1, hex); }
  }

  lemma {:induction false} ValueShift(s: bytes, i: nat, a: nat, b: nat, hex: bool)
    requires i <= a <= b <= |s| && forall k | a <= k < b :: Digit(s[k], hex) >= 0
    ensures (forall k | a - i <= k < b - i :: Digit(s[i..][k], hex) >= 0)
            && RunValue(s[i..], a - i, b - i, hex) == RunValue(s, a, b, hex)
    decreases b
  {
    assert forall k | a - i <= k < b - i :: s[i..][k] == s[k + i];
    if a < b { ValueShift(s, i, a, b - 1, hex); }
  }

  /** A reference at position i, whose digits are from start to j. */
  lemma {:induction false} RefShift(s: bytes, i: nat, start: nat, j: nat, hex: bool)
    requires i + 1 < |s| && s[i + 1] == HASH && hex == (i + 2 < |s| && (s[i + 2] == 0x78 || s[i + 2] == 0x58))
    requires start == i + (if hex then 3 else 2) && j == DigitEnd(s, start, hex)
    ensures var cp := RunValue(s, start, j, hex);
            NumericRef(s[i..]) == if j == start || j == |s| || s[j] != SEMI || cp == 0
                || !IsScalar(cp) then None else Some(Ref(cp, j + 1 - i))
  {
    EndShift(s, i, start, hex);
    ValueShift(s, i, start, j, hex);
  }

  /** decode_entities, one round */
  method DecodeUnit(s: bytes, i: nat, out: bytes) returns (n: nat, out': bytes)
    requires i < |s|
    ensures n == FirstUnit(s[i..]).len && out' == out + FirstUnit(s[i..]).out
  {
    var t := s[i..];
    n, out' := 1, out + [s[i]];
    if s[i] != AMP {
    } else if StartsWith(t, AMP_REF) {
      n, out' := 5, out + [AMP];
    } else if StartsWith(t, LT_REF) {
      n, out' := 4, out + [LT];
    } else if StartsWith(t, GT_REF) {
      n, out' := 4, out + [GT];
    } else if StartsWith(t, QUOT_REF) {
      n, out' := 6, out + [QUOTE];
    } else if StartsWith(t, APOS_REF) {
      n, out' := 6, out + [APOS];
    } else {
      var consumed, decoded := DecodeNumericRef(s, i, out);
      if consumed != 0 {
        n, out' := consumed, decoded;
      }
    }
  }

  /** decode_entities */
  method DecodeEntities(s: bytes) returns (out: bytes)
    ensures out == Decode(s)
  {
    out := [];
    var i := 0;
    while i < |s|
      invariant 0 <= i <= |s| && out + Decode(s[i..]) == Decode(s)
    {
      ghost var before, u := out, FirstUnit(s[i..]);
      var n;
      n, out := DecodeUnit(s, i, out);
      SuffixDrop(s, i, n);
      Two(before, u.out, Decode(s[i + n..]));
      i := i + n;
    }
    assert s[i..] == [] && out + [] == out;
  }

  /** escape */
  method EscapeText(text: bytes, quotes: bool) returns (out: bytes)
    ensures out == Escape(text, quotes)
  {
    out := [];
    var i := 0;
    while i < |text|
      invariant 0 <= i <= |text| && out + Escape(text[i..], quotes) == Escape(text, quotes)
    {
      Suffix(text, i);
      Two(out, Escaped(text[i], quotes), Escape(text[i + 1..], quotes));
      out := out + Escaped(text[i], quotes);
      i := i + 1;
    }
    assert text[i..] == [] && out + [] == out;
  }

  // ---------------------------------------------------------------- the parser

  lemma {:induction false} UpToAt(s: bytes, i: nat, j: nat, b: byte)
    requires i <= j <= |s| && (forall k | i <= k < j :: s[k] != b) && (j < |s| ==> s[j] == b)
    ensures UpTo(s[i..], b) == if j == |s| then Fail else Got(s[i..j], s[j..])
    decreases j - i
  {
    if i < j {
      Suffix(s, i);
      UpToAt(s, i + 1, j, b);
      assert [s[i]] + s[i + 1..j] == s[i..j];
    } else if j < |s| {
      Suffix(s, i);
      assert s[i..j] == [];
    } else {
      assert s[i..] == [];
    }
  }

  lemma {:induction false} PastAt(s: bytes, i: nat, j: nat, t: bytes)
    requires t != [] && i <= j <= |s| && forall k | i <= k < j :: !StartsWith(s[k..], t)
    ensures Past(s[i..], t) == Past(s[j..], t)
    decreases j - i
  {
    if i < j {
      Suffix(s, i);
      PastAt(s, i + 1, j, t);
    }
  }

  lemma {:induction false} NameShift(s: bytes, i: nat, k: nat)
    requires i <= k <= |s|
    ensures NameEnd(s[i..], k - i) == NameEnd(s, k) - i
    decreases |s| - k
  {
    if k < |s| && IsNameByte(s[k]) { NameShift(s, i, k + 1); }
  }

  lemma {:induction false} NameAt(s: bytes, i: nat, j: nat)
    requires i < |s| && IsNameStart(s[i]) && j == NameEnd(s, i + 1)
    ensures Name(s[i..]) == Got(s[i..j], s[j..])
  {
    NameShift(s, i, i + 1);
    SuffixDrop(s, i, j - i);
    assert s[i..][..j - i] == s[i..j];
  }

  /** A quoted value between the positions i and j. */
  lemma {:induction false} QuotedAt(s: bytes, i: nat, j: nat)
    requires i < j <= |s| && (s[i] == QUOTE || s[i] == APOS) && (forall k | i + 1 <= k < j :: s[k] != s[i])
             && (j < |s| ==> s[j] == s[i])
    ensures Quoted(s[i..]) == if j == |s| then Fail else Got(Decode(s[i + 1..j]), s[j + 1..])
  {
    Suffix(s, i);
    UpToAt(s, i + 1, j, s[i]);
    if j < |s| { Suffix(s, j); }
  }

  /** An attribute in front of `rest`, as parse_element's loop reads it. */
  lemma {:induction false} AttrRead(s: bytes, acc: seq<Entry<bytes>>, key: bytes, r: bytes, u: bytes, value: bytes,
                                    rest: bytes)
    requires s != [] && !IsSpace(s[0]) && s[0] != GT && s[0] != SLASH
    requires Name(s) == Got(key, r) && SkipSpaces(r) == u && u != [] && u[0] == EQ && !HasKey(acc, key)
             && AttrValue(u[1..]) == Got(value, rest)
    ensures |rest| < |s| && Attrs(s, acc) == Attrs(rest, Put(acc, key, value))
  {
    NoSpaces(s);
  }

  lemma {:induction false} NoAttr(s: bytes, acc: seq<Entry<bytes>>)
    requires s != [] && !IsSpace(s[0]) && s[0] != GT && s[0] != SLASH
    requires Name(s).Got? ==>
               var u := SkipSpaces(Name(s).rest);
               u == [] || u[0] != EQ || HasKey(acc, Name(s).v) || AttrValue(u[1..]) == Fail
    ensures Attrs(s, acc) == Fail
  {
    NoSpaces(s);
  }

  class Parser {
    var str: bytes
    var idx: nat

    ghost predicate Valid()
      reads this
    {
      idx <= |str|
    }

    ghost function Rest(): bytes
      requires Valid()
      reads this
    {
      str[idx..]
    }

    ghost predicate Agrees<T(!new)>(want: Res<T>, r: Option<T>)
      reads this
    {
      match r
      case None => want.Fail?
      case Some(v) => Valid() && want == Got(v, Rest())
    }

    constructor ()
      ensures Valid() && str == []
    {
      str, idx := [], 0;
    }

    /** load_string */
    method LoadString(s: bytes)
      modifies this
      ensures Valid() && str == s
    {
      str, idx := s, 0;
    }

    /** skip_white_spaces */
    method SkipWhiteSpaces()
      requires Valid()
      modifies this`idx
      ensures Valid() && Rest() == SkipSpaces(old(Rest())) && idx >= old(idx)
    {
      while idx < |str| && IsSpace(str[idx])
        invariant old(idx) <= idx <= |str| && SkipSpaces(str[idx..]) == SkipSpaces(old(Rest()))
        decreases |str| - idx
      {
        Suffix(str, idx);
        idx := idx + 1;
      }
      if idx < |str| { Suffix(str, idx); }
    }

    /** m_str.compare(m_idx, |t|, t) == 0 */
    method Ahead(t: bytes) returns (yes: bool)
      requires Valid()
      ensures yes <==> StartsWith(Rest(), t)
    {
      yes := idx + |t| <= |str| && str[idx..idx + |t|] == t;
      if idx + |t| <= |str| { assert str[idx..][..|t|] == str[idx..idx + |t|]; }
    }

    /** m_str.find(b, from), or the length of the string */
    method FindByte(b: byte, from: nat) returns (j: nat)
      requires from <= |str|
      ensures from <= j <= |str| && (forall k | from <= k < j :: str[k] != b) && (j < |str| ==> str[j] == b)
    {
      j := from;
      while j < |str| && str[j] != b
        invariant from <= j <= |str| && forall k | from <= k < j :: str[k] != b
      {
        j := j + 1;
      }
    }

    /** m_str.find(t, from), and the position behind it */
    method FindPast(t: bytes, from: nat) returns (r: Option<nat>)
      requires t != [] && from <= |str|
      ensures match r
              case None => Past(str[from..], t) == None
              case Some(j) => j <= |str| && Past(str[from..], t) == Some(str[j..])
    {
      var j := from;
      while j + |t| <= |str|
        invariant from <= j <= |str| && forall k | from <= k < j :: !StartsWith(str[k..], t)
      {
        if str[j..j + |t|] == t {
          assert str[j..][..|t|] == str[j..j + |t|];
          PastAt(str, from, j, t);
          SuffixDrop(str, j, |t|);
          return Some(j + |t|);
        }
        assert str[j..][..|t|] == str[j..j + |t|];
        j := j + 1;
      }
      PastAt(str, from, j, t);
      PastNone(str[j..], t);
      r := None;
    }

    static lemma {:induction false} PastNone(s: bytes, t: bytes)
      requires t != [] && |s| < |t|
      ensures Past(s, t) == None
      decreases |s|
    {
      if s != [] { PastNone(s[1..], t); }
    }

    /** parse_element_name and parse_element_attr_key */
    method ParseName() returns (r: Option<bytes>)
      requires Valid()
      modifies this`idx
      ensures Agrees(Name(old(Rest())), r)
    {
      if idx >= |str| || !IsNameStart(str[idx]) { return None; }
      var start := idx;
      idx := idx + 1;
      while idx < |str| && IsNameByte(str[idx])
        invariant start < idx <= |str| && NameEnd(str, idx) == NameEnd(str, start + 1)
        decreases |str| - idx
      {
        idx := idx + 1;
      }
      NameAt(str, start, idx);
      r := Some(str[start..idx]);
    }

    /** parse_element_attr_val, on a quote */
    method ParseQuoted() returns (r: Option<bytes>)
      requires Valid()
      modifies this`idx
      ensures Agrees(Quoted(old(Rest())), r)
    {
      if idx < |str| { Suffix(str, idx); }
      if idx >= |str| || (str[idx] != QUOTE && str[idx] != APOS) { return None; }
      var end := FindByte(str[idx], idx + 1);
      QuotedAt(str, idx, end);
      if end == |str| { return None; }
      var value := DecodeEntities(str[idx + 1..end]);
      idx := end + 1;
      r := Some(value);
    }

    /** parse_element_attr_val, with the value decoded */
    method ParseAttrValue() returns (r: Option<bytes>)
      requires Valid()
      modifies this`idx
      ensures Agrees(AttrValue(old(Rest())), r)
    {
      SkipWhiteSpaces();
      r := ParseQuoted();
    }

    /** parse_element_text */
    method ParseText() returns (r: Option<bytes>)
      requires Valid()
      modifies this`idx
      ensures Agrees(Text(old(Rest())), r) && (r.Some? ==> idx >= old(idx))
    {
      SkipWhiteSpaces();
      var end := FindByte(LT, idx);
      UpToAt(str, idx, end, LT);
      if end == |str| { return None; }
      r := Some(str[idx..end]);
      idx := end;
    }

    /** One attribute, behind the check for the end of the tag. */
    method ParseAttr(acc: seq<Entry<bytes>>) returns (r: Option<seq<Entry<bytes>>>)
      requires Valid() && Rest() != [] && !IsSpace(Rest()[0]) && Rest()[0] != GT && Rest()[0] != SLASH
      modifies this`idx
      ensures r.None? ==> Attrs(old(Rest()), acc) == Fail
      ensures r.Some? ==> Valid() && |Rest()| < |old(Rest())| && Attrs(old(Rest()), acc) == Attrs(Rest(), r.v)
    {
      r := None;
      ghost var s := Rest();
      var key := ParseName();
      if key.Some? {
        ghost var t := Rest();
        var value := ParseEquals(key.v, acc);
        if value.Some? {
          AttrRead(s, acc, key.v, t, SkipSpaces(t), value.v, Rest());
          return Some(Put(acc, key.v, value.v));
        }
      }
      NoAttr(s, acc);
    }

    /** The value of an attribute with this key, which must be a new one. */
    method ParseEquals(key: bytes, acc: seq<Entry<bytes>>) returns (r: Option<bytes>)
      requires Valid()
      modifies this`idx
      ensures var u := SkipSpaces(old(Rest()));
              if u == [] || u[0] != EQ || HasKey(acc, key) then r.None? else Agrees(AttrValue(u[1..]), r)
    {
      SkipWhiteSpaces();
      if idx >= |str| || str[idx] != EQ { return None; }
      Suffix(str, idx);
      idx := idx + 1;
      if HasKey(acc, key) { return None; }  // seen_attrs
      r := ParseAttrValue();
    }

    /** The attribute loop of parse_element. */
    method ParseAttrs() returns (r: Option<Tag>)
      requires Valid()
      modifies this`idx
      ensures Agrees(Attrs(old(Rest()), []), r)
    {
      var acc: seq<Entry<bytes>> := [];
      while true
        invariant Valid() && Attrs(Rest(), acc) == Attrs(old(Rest()), [])
        decreases |Rest()|
      {
        ghost var before := Rest();
        SkipWhiteSpaces();
        AttrsSkip(before, acc);
        if idx >= |str| { return None; }
        Suffix(str, idx);
        if str[idx] == GT {
          idx := idx + 1;
          return Some(Tag(acc, false));
        }
        if str[idx] == SLASH {
          if idx + 1 < |str| && str[idx + 1] == GT {
            SuffixDrop(str, idx, 2);
            idx := idx + 2;
            return Some(Tag(acc, true));
          }
          return None;
        }
        var next := ParseAttr(acc);
        if next.None? { return None; }
        acc := next.v;
      }
    }

    static lemma {:induction false} AttrsSkip(s: bytes, acc: seq<Entry<bytes>>)
      ensures Attrs(s, acc) == Attrs(SkipSpaces(s), acc)
    {
      var t := SkipSpaces(s);
      if t != [] { assert SkipSpaces(t) == t; }
    }

    /** parse_element */
    method ParseElement(depth: nat) returns (r: Option<Element>)
      requires Valid() && Rest() != []
      modifies this`idx
      ensures Agrees(ElementAt(old(Rest()), depth), r)
      decreases |str| - idx, 1
    {
      if depth >= K_MAX_DEPTH { return None; }
      Suffix(str, idx);
      idx := idx + 1;
      var name := ParseName();
      if name.None? { return None; }
      ghost var tail := Rest();
      BodyStep(old(Rest()), name.v, tail, depth);
      assert |tail| < |old(Rest())|;
      r := ParseBody(name.v, depth);
    }

    /** parse_element, behind the name */
    method ParseBody(name: bytes, depth: nat) returns (r: Option<Element>)
      requires Valid()
      modifies this`idx
      ensures Agrees(AfterName(old(Rest()), name, depth), r)
      decreases |str| - idx, 4
    {
      var tag := ParseAttrs();
      if tag.None? { return None; }
      assert |Rest()| < |old(Rest())|;
      if tag.v.empty { return Some(Element(name, [], tag.v.attrs, [])); }
      var raw := ParseText();
      if raw.None? { return None; }
      var text := DecodeEntities(raw.v);
      var children := ParseChildren(name, depth);
      if children.None? { return None; }
      r := Some(Element(name, text, tag.v.attrs, children.v));
    }

    /** The loop of parse_element over children and comments. */
    method ParseChildren(name: bytes, depth: nat) returns (r: Option<seq<Element>>)
      requires Valid()
      modifies this`idx
      ensures Agrees(Children(old(Rest()), name, depth, []), r)
      decreases |str| - idx, 3
    {
      var acc: seq<Element> := [];
      while true
        invariant Valid() && idx >= old(idx) && Children(Rest(), name, depth, acc) ==
                  Children(old(Rest()), name, depth, [])
        decreases |str| - idx
      {
        ghost var before := Rest();
        SkipWhiteSpaces();
        ChildrenSkip(before, name, depth, acc);
        if idx >= |str| || str[idx] != LT { return None; }
        Suffix(str, idx);
        if idx + 1 < |str| && str[idx + 1] == SLASH {
          var end := Ahead(EndTag(name));
          if !end { return None; }
          SuffixDrop(str, idx, |EndTag(name)|);
          idx := idx + |EndTag(name)|;
          return Some(acc);
        }
        var comment := Ahead(COMMENT_OPEN);
        if comment {
          var past := ParseComment();
          if !past { return None; }
        } else {
          var child := ParseChild(depth);
          if child.None? {
            return None;
          }
          acc := acc + [child.v];
        }
      }
    }

    static lemma {:induction false} ChildrenSkip(s: bytes, name: bytes, depth: nat, acc: seq<Element>)
      ensures Children(s, name, depth, acc) == Children(SkipSpaces(s), name, depth, acc)
    {
      var t := SkipSpaces(s);
      if t != [] { assert SkipSpaces(t) == t; }
    }

    /** parse_comment */
    method ParseComment() returns (ok: bool)
      requires Valid() && StartsWith(Rest(), COMMENT_OPEN)
      modifies this`idx
      ensures match Past(old(Rest())[4..], COMMENT_CLOSE)
              case None => !ok
              case Some(rest) => ok && Valid() && Rest() == rest && idx > old(idx)
    {
      SuffixDrop(str, idx, 4);
      var past := FindPast(COMMENT_CLOSE, idx + 4);
      if past.None? { return false; }
      assert |str[past.v..]| < |str[idx + 4..]|;
      idx := past.v;
      ok := true;
    }

    /** A child element, and no text behind it. */
    method ParseChild(depth: nat) returns (r: Option<Element>)
      requires Valid() && Rest() != [] && Rest()[0] == LT
      modifies this`idx
      ensures r.None? ==> !IsElementStart(old(Rest())) || ElementAt(old(Rest()), depth + 1) == Fail ||
                          var e := ElementAt(old(Rest()), depth + 1); Text(e.rest) == Fail || Text(e.rest).v != []
      ensures r.Some? ==>
                && IsElementStart(old(Rest())) && Valid() && idx > old(idx)
                && var e := ElementAt(old(Rest()), depth + 1);
                   e.Got? && e.v == r.v && Text(e.rest) == Got([], Rest())
      decreases |str| - idx, 2
    {
      if !(idx + 1 < |str| && IsNameStart(str[idx + 1])) { return None; }
      r := ParseElement(depth + 1);
      if r.None? { return None; }
      assert |Rest()| < |old(Rest())|;
      var tail := ParseText();
      if tail.None? || tail.v != [] { return None; }
    }

    /** Comments and processing instructions around the root. */
    method ParseMisc() returns (ok: bool)
      requires Valid()
      modifies this`idx
      ensures match Misc(old(Rest()))
              case None => !ok
              case Some(rest) => ok && Valid() && Rest() == rest
    {
      while true
        invariant Valid() && Misc(Rest()) == Misc(old(Rest()))
        decreases |str| - idx
      {
        var comment := Ahead(COMMENT_OPEN);
        if comment {
          var past := ParseComment();
          if !past { return false; }
        } else if idx + 1 < |str| && str[idx] == LT && str[idx + 1] == QUESTION {
          var past := FindPast(PI_CLOSE, idx);
          if past.None? { return false; }
          assert |str[past.v..]| < |str[idx..]|;
          idx := past.v;
        } else {
          return true;
        }
        SkipWhiteSpaces();
      }
    }

    /** parse: the method accepts exactly the texts of the grammar, with the elements that they denote. */
    method Parse() returns (r: Option<Element>)
      modifies this`idx
      ensures r == Document(str)
      ensures forall e :: r == Some(e) <==> G.Denotes(str, e)
    {
      ghost var text := str;
      forall e ensures Document(text) == Some(e) <==> G.Denotes(text, e) { XmlExact.DocumentExact(text, e); }
      idx := 0;
      assert str[0..] == str;
      var bom := Ahead(BOM);
      if bom { idx := 3; }
      SkipWhiteSpaces();
      var ok := ParseMisc();
      if !ok { return None; }
      if !(idx + 1 < |str| && str[idx] == LT && IsNameStart(str[idx + 1])) { return None; }
      r := ParseElement(0);
      if r.None? { return None; }
      SkipWhiteSpaces();
      ok := ParseMisc();
      if !ok || idx < |str| { return None; }
    }
  }
}
