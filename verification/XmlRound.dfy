/** Printing and parsing XML are inverse, up to spaces in front of texts. */
module XmlRound {
  import opened Bytes
  import opened XmlText

  // ---------------------------------------------------------------- references

  lemma {:induction false} DecodeEscaped(b: byte, quotes: bool, tail: bytes)
    ensures Decode(Escaped(b, quotes) + tail) == [b] + Decode(tail)
  {
    var e := Escaped(b, quotes);
    var s := e + tail;
    assert s[|e|..] == tail;
    if |e| > 1 {
      assert s[..|e|] == e;
      assert s[1] == e[1];
      assert b == AMP || !StartsWith(s, AMP_REF) by { if StartsWith(s, AMP_REF) { assert s[..5][1] == AMP_REF[1]; } }
      assert b == LT || !StartsWith(s, LT_REF) by { if StartsWith(s, LT_REF) { assert s[..4][1] == LT_REF[1]; } }
      assert b == GT || !StartsWith(s, GT_REF) by { if StartsWith(s, GT_REF) { assert s[..4][1] == GT_REF[1]; } }
    }
  }

  /** Decoding undoes escaping, for every string. */
  lemma {:induction false} DecodeEscape(s: bytes, quotes: bool)
    ensures Decode(Escape(s, quotes)) == s
    decreases |s|
  {
    if s != [] {
      DecodeEscaped(s[0], quotes, Escape(s[1..], quotes));
      DecodeEscape(s[1..], quotes);
      assert [s[0]] + s[1..] == s;
    }
  }

  /** What an escaped string does not contain. */
  lemma {:induction false} EscapeAvoids(s: bytes, quotes: bool)
    ensures forall i | 0 <= i < |Escape(s, quotes)| ::
              Escape(s, quotes)[i] != LT && (quotes ==> Escape(s, quotes)[i] != QUOTE)
    decreases |s|
  {
    if s != [] { EscapeAvoids(s[1..], quotes); }
  }

  lemma {:induction false} EscapeName(s: bytes)
    requires forall i | 0 <= i < |s| :: IsNameByte(s[i])
    ensures Escape(s, true) == s
    decreases |s|
  {
    if s != [] {
      EscapeName(s[1..]);
      assert [s[0]] + s[1..] == s;
    }
  }

  lemma {:induction false} UpToFirst(x: bytes, b: byte, rest: bytes)
    requires forall i | 0 <= i < |x| :: x[i] != b
    ensures UpTo(x + ([b] + rest), b) == Got(x, [b] + rest)
    decreases |x|
  {
    if x == [] {
      assert x + ([b] + rest) == [b] + rest;
    } else {
      assert (x + ([b] + rest))[1..] == x[1..] + ([b] + rest);
      UpToFirst(x[1..], b, rest);
      assert [x[0]] + x[1..] == x;
    }
  }

  // ---------------------------------------------------------------- start tags

  lemma {:induction false} NameRun(s: bytes, i: nat, j: nat)
    requires i <= j <= |s| && (forall k | i <= k < j :: IsNameByte(s[k])) && (j == |s| || !IsNameByte(s[j]))
    ensures NameEnd(s, i) == j
    decreases j - i
  {
    if i < j { NameRun(s, i + 1, j); }
  }

  lemma {:induction false} NameRound(name: bytes, rest: bytes)
    requires IsName(name) && (rest == [] || !IsNameByte(rest[0]))
    ensures Name(name + rest) == Got(name, rest)
  {
    var s := name + rest;
    assert s[..|name|] == name && s[|name|..] == rest;
    assert forall k | 1 <= k < |name| :: s[k] == name[k];
    NameRun(s, 1, |name|);
  }

  lemma {:induction false} ValueRound(v: bytes, rest: bytes)
    ensures AttrValue([QUOTE] + (Escape(v, true) + ([QUOTE] + rest))) == Got(v, rest)
  {
    var t := Escape(v, true) + ([QUOTE] + rest);
    Cons(QUOTE, t);
    NoSpaces([QUOTE] + t);
    EscapeAvoids(v, true);
    UpToFirst(Escape(v, true), QUOTE, rest);
    DecodeEscape(v, true);
    Cons(QUOTE, rest);
  }

  lemma {:induction false} NewKey(acc: seq<Entry<bytes>>, attrs: seq<Entry<bytes>>)
    requires attrs != [] && Sorted(acc + attrs)
    ensures !HasKey(acc, attrs[0].key)
  {
    forall i | 0 <= i < |acc| ensures acc[i].key != attrs[0].key {
      assert Less((acc + attrs)[i].key, (acc + attrs)[|acc|].key);
      LessOnce(acc[i].key, attrs[0].key);
    }
  }

  /** One round of the parser's loop over attributes. */
  lemma {:induction false} AttrStep(s: bytes, key: bytes, v: bytes, rest: bytes, acc: seq<Entry<bytes>>)
    requires IsName(key) && !HasKey(acc, key)
    requires s == [SPACE] + (key + ([EQ] + ([QUOTE] + (Escape(v, true) + ([QUOTE] + rest)))))
    ensures Attrs(s, acc) == Attrs(rest, Put(acc, key, v))
  {
    var q := [QUOTE] + (Escape(v, true) + ([QUOTE] + rest));
    var t := key + ([EQ] + q);
    Cons(SPACE, t);
    assert t[0] == key[0];
    NoSpaces(t);
    NameRound(key, [EQ] + q);
    NoSpaces([EQ] + q);
    Cons(EQ, q);
    ValueRound(v, rest);
  }

  lemma {:induction false} AttrText(k: bytes, v: bytes, more: bytes)
    ensures [SPACE] + k + [EQ, QUOTE] + v + [QUOTE] + more ==
            [SPACE] + (k + ([EQ] + ([QUOTE] + (v + ([QUOTE] + more)))))
  {
    assert [EQ, QUOTE] == [EQ] + [QUOTE];
  }

  /** Attributes parse back in order. */
  lemma {:induction false} AttrsRound(attrs: seq<Entry<bytes>>, acc: seq<Entry<bytes>>, rest: bytes)
    requires Sorted(acc + attrs) && forall i | 0 <= i < |attrs| :: IsName(attrs[i].key)
    ensures Attrs(PrintAttrs(attrs) + rest, acc) == Attrs(rest, acc + attrs)
    decreases |attrs|
  {
    if attrs == [] {
      assert PrintAttrs(attrs) + rest == rest && acc + attrs == acc;
    } else {
      var a, more := attrs[0], PrintAttrs(attrs[1..]) + rest;
      EscapeName(a.key);
      AttrText(a.key, Escape(a.value, true), more);
      Two(PrintAttr(a), PrintAttrs(attrs[1..]), rest);
      NewKey(acc, attrs);
      AttrStep(PrintAttrs(attrs) + rest, a.key, a.value, more, acc);
      PutNext(acc, attrs);
      Regroup(acc, attrs);
      AttrsRound(attrs[1..], acc + [a], rest);
    }
  }

  // ---------------------------------------------------------------- elements

  /** The tree with the spaces in front of its texts removed. */
  function Normal(e: Element): Element
    decreases e
  {
    Element(e.name, SkipSpaces(e.text), e.attrs, NormalAll(e.children))
  }

  function NormalAll(es: seq<Element>): seq<Element>
    decreases es
  {
    if es == [] then [] else [Normal(es[0])] + NormalAll(es[1..])
  }

  lemma {:induction false} SkipEscaped(s: bytes, rest: bytes)
    ensures SkipSpaces(Escape(s, false) + ([LT] + rest)) == Escape(SkipSpaces(s), false) + ([LT] + rest)
    decreases |s|
  {
    var t := [LT] + rest;
    if s == [] {
      assert Escape(s, false) + t == t;
    } else {
      assert Escape(s, false) + t == Escaped(s[0], false) + (Escape(s[1..], false) + t);
      if IsSpace(s[0]) {
        Cons(s[0], Escape(s[1..], false) + t);
        SkipEscaped(s[1..], rest);
      } else {
        assert (Escape(s, false) + t)[0] == Escaped(s[0], false)[0];
      }
    }
  }

  lemma {:induction false} TextRound(text: bytes, rest: bytes)
    ensures Text(Escape(text, false) + ([LT] + rest)) == Got(Escape(SkipSpaces(text), false), [LT] + rest)
    ensures Decode(Escape(SkipSpaces(text), false)) == SkipSpaces(text)
  {
    SkipEscaped(text, rest);
    EscapeAvoids(SkipSpaces(text), false);
    UpToFirst(Escape(SkipSpaces(text), false), LT, rest);
    DecodeEscape(SkipSpaces(text), false);
  }

  /** What follows the start of an element's name in its text. */
  function Body(e: Element): bytes
    requires e.name != []
  {
    PrintAttrs(e.attrs) +
    if e.children == [] && e.text == [] then [SPACE, SLASH, GT]
    else [GT] + Escape(e.text, false) + PrintAll(e.children) + EndTag(e.name)
  }

  lemma {:induction false} PrintBody(e: Element, rest: bytes)
    requires IsName(e.name)
    ensures Print(e) + rest == [LT] + (e.name + (Body(e) + rest))
    ensures Body(e) != [] && !IsNameByte(Body(e)[0])
  {
    EscapeName(e.name);
    var t := if e.children == [] && e.text == [] then [SPACE, SLASH, GT]
             else [GT] + Escape(e.text, false) + PrintAll(e.children) + EndTag(e.name);
    Glue(e.name, PrintAttrs(e.attrs), t, rest);
    if e.attrs != [] { assert PrintAttrs(e.attrs)[0] == SPACE; }
  }

  lemma {:induction false} Glue(name: bytes, a: bytes, t: bytes, rest: bytes)
    ensures [LT] + name + a + t + rest == [LT] + (name + ((a + t) + rest))
  {
  }

  lemma {:induction false} Three(a: bytes, b: bytes, c: bytes, d: bytes)
    ensures a + b + c + d == a + (b + c + d)
  {
  }

  lemma {:induction false} ElementStarts(e: Element, rest: bytes)
    requires IsName(e.name)
    ensures var s := Print(e) + rest;
            && IsElementStart(s) && SkipSpaces(s) == s && !StartsWith(s, COMMENT_OPEN)
            && s[1] != SLASH && s[1] != QUESTION
  {
    PrintBody(e, rest);
    var s := Print(e) + rest;
    assert s[0] == LT && s[1] == e.name[0];
  }

  /** A printed element parses back to its normal form, whatever follows it, unless it is nested too
      deep. */
  lemma {:induction false} ElementRound(e: Element, depth: nat, rest: bytes)
    requires Legal(e)
    ensures Print(e) + rest != []
    ensures ElementAt(Print(e) + rest, depth) == if depth + Levels(e) <= K_MAX_DEPTH then Got(Normal(e), rest) else Fail
    decreases e, 1
  {
    var s, tail := Print(e) + rest, Body(e) + rest;
    PrintBody(e, rest);
    Cons(LT, e.name + tail);
    if depth < K_MAX_DEPTH {
      NameRound(e.name, tail);
      BodyRound(e, depth, rest);
      BodyStep(s, e.name, tail, depth);
    }
  }

  lemma {:induction false} OpenStep(s: bytes, name: bytes, depth: nat, attrs: seq<Entry<bytes>>, r: bytes, raw: bytes,
                                    more: bytes)
    requires Attrs(s, []) == Got(Tag(attrs, false), r) && Text(r) == Got(raw, more)
    ensures AfterName(s, name, depth) ==
            match Children(more, name, depth, [])
            case Fail => Fail
            case Got(children, end) => Got(Element(name, Decode(raw), attrs, children), end)
  {
  }

  lemma {:induction false} OpenText(a: bytes, x: bytes, c: bytes, t: bytes, rest: bytes)
    ensures a + ([GT] + x + c + t) + rest == a + ([GT] + (x + (c + t + rest)))
  {
  }

  lemma {:induction false} EmptyBodyRound(e: Element, depth: nat, rest: bytes)
    requires Legal(e) && depth < K_MAX_DEPTH && e.children == [] && e.text == []
    ensures AfterName(Body(e) + rest, e.name, depth) == Got(Normal(e), rest)
  {
    var end := [SPACE, SLASH, GT] + rest;
    assert Body(e) + rest == PrintAttrs(e.attrs) + end;
    assert [] + e.attrs == e.attrs;
    AttrsRound(e.attrs, [], end);
    EmptyTag(rest, e.attrs);
  }

  /** The attributes and the text of an element with content. */
  lemma {:induction false} OpenBody(e: Element, rest: bytes, more: bytes)
    requires Legal(e) && (e.children != [] || e.text != []) && more == PrintAll(e.children) + EndTag(e.name) + rest
    ensures Attrs(Body(e) + rest, []) == Got(Tag(e.attrs, false), Escape(e.text, false) + more)
    ensures Text(Escape(e.text, false) + more) == Got(Escape(SkipSpaces(e.text), false), more)
    ensures Decode(Escape(SkipSpaces(e.text), false)) == SkipSpaces(e.text)
  {
    OpenText(PrintAttrs(e.attrs), Escape(e.text, false), PrintAll(e.children), EndTag(e.name), rest);
    assert [] + e.attrs == e.attrs;
    AttrsRound(e.attrs, [], [GT] + (Escape(e.text, false) + more));
    OpenTag(Escape(e.text, false) + more, e.attrs);
    ChildrenStart(e.children, e.name, rest);
    TextRound(e.text, more[1..]);
    assert more == [LT] + more[1..];
    DecodeEscape(SkipSpaces(e.text), false);
  }

  lemma {:induction false} BodyRound(e: Element, depth: nat, rest: bytes)
    requires Legal(e) && depth < K_MAX_DEPTH
    ensures AfterName(Body(e) + rest, e.name, depth) == if depth + Levels(e) <= K_MAX_DEPTH then Got(Normal(e), rest)
            else Fail
    decreases e, 0
  {
    if e.children == [] && e.text == [] {
      EmptyBodyRound(e, depth, rest);
    } else {
      var more := PrintAll(e.children) + EndTag(e.name) + rest;
      OpenBody(e, rest, more);
      OpenStep(Body(e) + rest, e.name, depth, e.attrs, Escape(e.text, false) + more, Escape(SkipSpaces(e.text), false),
               more);
      ChildrenRound(e.children, e.name, depth, [], rest);
      assert [] + NormalAll(e.children) == NormalAll(e.children);
    }
  }

  lemma {:induction false} EmptyTag(rest: bytes, attrs: seq<Entry<bytes>>)
    ensures Attrs([SPACE, SLASH, GT] + rest, attrs) == Got(Tag(attrs, true), rest)
  {
    var s := [SPACE, SLASH, GT] + rest;
    assert s[1..] == [SLASH, GT] + rest && s[1..][2..] == rest;
    NoSpaces(s[1..]);
  }

  lemma {:induction false} OpenTag(rest: bytes, attrs: seq<Entry<bytes>>)
    ensures Attrs([GT] + rest, attrs) == Got(Tag(attrs, false), rest)
  {
    Cons(GT, rest);
    NoSpaces([GT] + rest);
  }

  lemma {:induction false} ChildrenStart(es: seq<Element>, name: bytes, rest: bytes)
    requires forall i | 0 <= i < |es| :: Legal(es[i])
    ensures var s := PrintAll(es) + EndTag(name) + rest; s != [] && s[0] == LT && SkipSpaces(s) == s
  {
    var s := PrintAll(es) + EndTag(name) + rest;
    if es == [] {
      assert s == EndTag(name) + rest;
    } else {
      Three(Print(es[0]), PrintAll(es[1..]), EndTag(name), rest);
      ElementStarts(es[0], PrintAll(es[1..]) + EndTag(name) + rest);
    }
  }

  lemma {:induction false} EndRound(name: bytes, depth: nat, acc: seq<Element>, rest: bytes)
    ensures Children(EndTag(name) + rest, name, depth, acc) == Got(acc, rest)
  {
    var s := EndTag(name) + rest;
    assert s[0] == LT && s[1] == SLASH;
    NoSpaces(s);
    assert s[..|EndTag(name)|] == EndTag(name) && s[|EndTag(name)|..] == rest;
  }

  /** One round of the parser's loop over children. */
  lemma {:induction false} ChildStep(s: bytes, name: bytes, depth: nat, acc: seq<Element>, child: Element, more: bytes)
    requires IsElementStart(s) && SkipSpaces(s) == s && !StartsWith(s, COMMENT_OPEN) && s[1] != SLASH
    requires more != [] && more[0] == LT && ElementAt(s, depth + 1) == Got(child, more)
    ensures Children(s, name, depth, acc) == Children(more, name, depth, acc + [child])
  {
    NoSpaces(more);
  }

  lemma {:induction false} ChildFails(s: bytes, name: bytes, depth: nat, acc: seq<Element>)
    requires IsElementStart(s) && SkipSpaces(s) == s && !StartsWith(s, COMMENT_OPEN) && s[1] != SLASH
             && ElementAt(s, depth + 1) == Fail
    ensures Children(s, name, depth, acc) == Fail
  {
  }

  lemma {:induction false} NormalMore(acc: seq<Element>, es: seq<Element>)
    requires es != []
    ensures acc + [Normal(es[0])] + NormalAll(es[1..]) == acc + NormalAll(es)
    ensures ChildLevels(es) == Max(Levels(es[0]), ChildLevels(es[1..]))
  {
  }

  lemma {:induction false} ChildrenRound(es: seq<Element>, name: bytes, depth: nat, acc: seq<Element>, rest: bytes)
    requires (forall i | 0 <= i < |es| :: Legal(es[i])) && depth < K_MAX_DEPTH
    ensures Children(PrintAll(es) + EndTag(name) + rest, name, depth, acc) ==
            if depth + 1 + ChildLevels(es) <= K_MAX_DEPTH then Got(acc + NormalAll(es), rest) else Fail
    decreases es
  {
    var s := PrintAll(es) + EndTag(name) + rest;
    if es == [] {
      assert s == EndTag(name) + rest && acc + NormalAll(es) == acc;
      EndRound(name, depth, acc, rest);
    } else {
      var more := PrintAll(es[1..]) + EndTag(name) + rest;
      Three(Print(es[0]), PrintAll(es[1..]), EndTag(name), rest);
      ElementStarts(es[0], more);
      ElementRound(es[0], depth + 1, more);
      if depth + 1 + Levels(es[0]) > K_MAX_DEPTH {
        ChildFails(s, name, depth, acc);
      } else {
        ChildrenStart(es[1..], name, rest);
        ChildStep(s, name, depth, acc, Normal(es[0]), more);
        ChildrenRound(es[1..], name, depth, acc + [Normal(es[0])], rest);
        NormalMore(acc, es);
      }
    }
  }

  // ---------------------------------------------------------------- documents

  /** The round trip, for every legal tree: it fails exactly when there are more than 128 levels, and
      otherwise gives the tree without the spaces in front of its texts. */
  lemma {:induction false} RoundTrip(e: Element)
    requires Legal(e)
    ensures Document(Print(e)) == if Levels(e) <= K_MAX_DEPTH then Some(Normal(e)) else None
  {
    var s := Print(e);
    assert s + [] == s;
    ElementStarts(e, []);
    ElementRound(e, 0, []);
    assert s[0] != BOM[0];
  }

  /** No text starts with a space. */
  predicate Trimmed(e: Element) {
    (e.text == [] || !IsSpace(e.text[0])) && forall i | 0 <= i < |e.children| :: Trimmed(e.children[i])
  }

  lemma {:induction false} NormalIs(e: Element)
    ensures Normal(e) == e <==> Trimmed(e)
    decreases e
  {
    NormalAllIs(e.children);
    if e.text != [] && IsSpace(e.text[0]) { assert |SkipSpaces(e.text)| < |e.text|; }
  }

  lemma {:induction false} NormalAllIs(es: seq<Element>)
    ensures |NormalAll(es)| == |es|
    ensures NormalAll(es) == es <==> forall i | 0 <= i < |es| :: Trimmed(es[i])
    decreases es
  {
    if es != [] {
      NormalIs(es[0]);
      NormalAllIs(es[1..]);
      assert es == [es[0]] + es[1..];
      if forall i | 0 <= i < |es| :: Trimmed(es[i]) {
        assert forall i | 0 <= i < |es[1..]| :: Trimmed(es[1..][i]);
      }
      if NormalAll(es) == es {
        assert NormalAll(es)[0] == es[0] && NormalAll(es)[1..] == NormalAll(es[1..]);
        forall i | 0 <= i < |es| ensures Trimmed(es[i]) {
          if i > 0 { assert es[i] == es[1..][i - 1]; }
        }
      }
    }
  }

  /** A legal tree is printed and parsed back to itself if and only if it has at most 128 levels and
      none of its texts starts with a space. */
  lemma {:induction false} RoundTripIff(e: Element)
    requires Legal(e)
    ensures Document(Print(e)) == Some(e) <==> Levels(e) <= K_MAX_DEPTH && Trimmed(e)
  {
    RoundTrip(e);
    NormalIs(e);
  }

  // ---------------------------------------------------------------- accepted documents

  lemma {:induction false} NameLegal(s: bytes)
    requires Name(s).Got?
    ensures IsName(Name(s).v)
  {
    var name := Name(s).v;
    assert forall i | 1 <= i < |name| :: name[i] == s[i];
  }

  predicate AttrsLegal(attrs: seq<Entry<bytes>>) {
    Sorted(attrs) && forall i | 0 <= i < |attrs| :: IsName(attrs[i].key)
  }

  lemma {:induction false} PutLegal(attrs: seq<Entry<bytes>>, key: bytes, value: bytes)
    requires AttrsLegal(attrs) && IsName(key)
    ensures AttrsLegal(Put(attrs, key, value))
  {
    PutSorted(attrs, key, value);
    var put := Put(attrs, key, value);
    forall i | 0 <= i < |put| ensures IsName(put[i].key) { PutFrom(attrs, key, value, i); }
  }

  lemma {:induction false} TagLegal(s: bytes, acc: seq<Entry<bytes>>)
    requires AttrsLegal(acc)
    ensures Attrs(s, acc).Got? ==> AttrsLegal(Attrs(s, acc).v.attrs)
    decreases |s|
  {
    var t := SkipSpaces(s);
    if t != [] && t[0] != GT && t[0] != SLASH && Name(t).Got? {
      NameLegal(t);
      var key, u := Name(t).v, SkipSpaces(Name(t).rest);
      if u != [] && u[0] == EQ && AttrValue(u[1..]).Got? {
        PutLegal(acc, key, AttrValue(u[1..]).v);
        TagLegal(AttrValue(u[1..]).rest, Put(acc, key, AttrValue(u[1..]).v));
      }
    }
  }

  /** A tree that may stand at this depth. */
  predicate Fits(e: Element, depth: nat) {
    Legal(e) && depth + Levels(e) <= K_MAX_DEPTH
  }

  lemma {:induction false} LevelsBound(es: seq<Element>, n: nat)
    requires forall i | 0 <= i < |es| :: Levels(es[i]) <= n
    ensures ChildLevels(es) <= n
    decreases |es|
  {
    if es != [] { LevelsBound(es[1..], n); }
  }

  lemma {:induction false} ElementFits(s: bytes, depth: nat)
    requires s != []
    ensures ElementAt(s, depth).Got? ==> Fits(ElementAt(s, depth).v, depth)
    decreases |s|, 1
  {
    if depth < K_MAX_DEPTH && Name(s[1..]).Got? {
      NameLegal(s[1..]);
      var name, rest := Name(s[1..]).v, Name(s[1..]).rest;
      BodyStep(s, name, rest, depth);
      BodyFits(rest, name, depth);
    }
  }

  lemma {:induction false} BodyFits(s: bytes, name: bytes, depth: nat)
    requires IsName(name) && depth < K_MAX_DEPTH
    ensures AfterName(s, name, depth).Got? ==> Fits(AfterName(s, name, depth).v, depth)
    decreases |s|, 3
  {
    TagLegal(s, []);
    if Attrs(s, []).Got? && !Attrs(s, []).v.empty && Text(Attrs(s, []).rest).Got? {
      ChildrenFit(Text(Attrs(s, []).rest).rest, name, depth, []);
    }
  }

  lemma {:induction false} ChildrenFit(s: bytes, name: bytes, depth: nat, acc: seq<Element>)
    requires depth < K_MAX_DEPTH && forall i | 0 <= i < |acc| :: Fits(acc[i], depth + 1)
    ensures Children(s, name, depth, acc).Got? ==>
              var es := Children(s, name, depth, acc).v;
              (forall i | 0 <= i < |es| :: Legal(es[i])) && depth + 1 + ChildLevels(es) <= K_MAX_DEPTH
    decreases |s|, 2
  {
    var t := SkipSpaces(s);
    LevelsBound(acc, K_MAX_DEPTH - depth - 1);
    if t != [] && t[0] == LT && !(|t| > 1 && t[1] == SLASH) {
      if StartsWith(t, COMMENT_OPEN) {
        if Past(t[4..], COMMENT_CLOSE).Some? { ChildrenFit(Past(t[4..], COMMENT_CLOSE).v, name, depth, acc); }
      } else if IsElementStart(t) && ElementAt(t, depth + 1).Got? {
        ElementFits(t, depth + 1);
        var child := ElementAt(t, depth + 1);
        if Text(child.rest).Got? { ChildrenFit(Text(child.rest).rest, name, depth, acc + [child.v]); }
      }
    }
  }

  /** Printing what was parsed and parsing it again changes nothing, if and only if no text starts
      with a space. */
  lemma {:induction false} ReprintIff(s: bytes)
    requires Document(s).Some?
    ensures Document(Print(Document(s).v)) == Document(s) <==> Trimmed(Document(s).v)
  {
    ElementFits(Misc(SkipSpaces(if StartsWith(s, BOM) then s[3..] else s)).v, 0);
    RoundTripIff(Document(s).v);
  }

  /** An element that holds only text, written out. */
  function TextElement(name: bytes, raw: bytes): bytes {
    [LT] + (name + ([GT] + (raw + EndTag(name))))
  }

  lemma {:induction false} EndTagText(name: bytes)
    ensures EndTag(name) == [LT] + ([SLASH] + name + [GT]) && EndTag(name) + [] == EndTag(name)
  {
  }

  /** Its text is what the references in it stand for. */
  lemma {:induction false} TextElementRead(name: bytes, raw: bytes)
    requires IsName(name) && raw != [] && !IsSpace(raw[0]) && forall i | 0 <= i < |raw| :: raw[i] != LT
    ensures ElementAt(TextElement(name, raw), 0) == Got(Element(name, Decode(raw), [], []), [])
  {
    var tail := [GT] + (raw + EndTag(name));
    Cons(LT, name + tail);
    NameRound(name, tail);
    OpenTag(raw + EndTag(name), []);
    NoSpaces(raw + EndTag(name));
    EndTagText(name);
    UpToFirst(raw, LT, [SLASH] + name + [GT]);
    EndRound(name, 0, [], []);
    OpenStep(tail, name, 0, [], raw + EndTag(name), raw, EndTag(name));
    BodyStep(TextElement(name, raw), name, tail, 0);
  }

  lemma {:induction false} OnlyRoot(s: bytes, e: Element)
    requires IsElementStart(s) && ElementAt(s, 0) == Got(e, [])
    ensures Document(s) == Some(e)
  {
    NoSpaces(s);
    assert s[0] != BOM[0];
    assert s[1] != COMMENT_OPEN[1];
  }

  /** A text starts with a space when a reference says so: <a>&#32;</a>.  Such a document does not
      survive printing and parsing. */
  lemma {:induction false} SpacedText()
    ensures var s := TextElement([0x61], [AMP, HASH, 0x33, 0x32, SEMI]);
            Document(s) == Some(Element([0x61], [SPACE], [], [])) && Document(Print(Document(s).v)) != Document(s)
  {
    var raw := [AMP, HASH, 0x33, 0x32, SEMI];
    var s := TextElement([0x61], raw);
    SpaceRef(raw);
    TextElementRead([0x61], raw);
    OnlyRoot(s, Element([0x61], [SPACE], [], []));
    ReprintIff(s);
  }

  lemma {:induction false} SpaceRef(raw: bytes)
    requires raw == [AMP, HASH, 0x33, 0x32, SEMI]
    ensures Decode(raw) == [SPACE]
  {
    SpaceRun(raw);
    assert NumericRef(raw) == Some(Ref(32, 5));
    assert FirstUnit(raw) == Unit([SPACE], 5) && raw[5..] == [] && Decode([]) == [];
  }

  lemma {:induction false} SpaceRun(raw: bytes)
    requires raw == [AMP, HASH, 0x33, 0x32, SEMI]
    ensures DigitEnd(raw, 2, false) == 4 && RunValue(raw, 2, 4, false) == 32
  {
    assert DigitEnd(raw, 4, false) == 4 && DigitEnd(raw, 3, false) == 4;
    assert RunValue(raw, 2, 2, false) == 0 && RunValue(raw, 2, 3, false) == 3;
  }
}
