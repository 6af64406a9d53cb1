/** What the printer writes, in terms of the grammar: one space in front of an attribute, double quotes, no
    spaces between tags, and an entity only where one is needed. */
module XmlPrint {
  import opened Bytes
  import opened Notation
  import opened XmlText
  import XmlRound
  import opened XmlTokens
  import XmlExact
  import G = XmlGrammar

  /** The unit for a byte; double quotes are written as an entity in attributes only. */
  function Written(b: byte, quotes: bool): G.Unit {
    if b == '&' as int then G.Named(Ascii("amp"), b)
    else if b == '<' as int then G.Named(Ascii("lt"), b)
    else if b == '>' as int then G.Named(Ascii("gt"), b)
    else if quotes && b == '\"' as int then G.Named(Ascii("quot"), b)
    else G.Plain(b)
  }

  function WrittenAll(s: bytes, quotes: bool): seq<G.Unit> {
    if s == [] then [] else [Written(s[0], quotes)] + WrittenAll(s[1..], quotes)
  }

  function CompactAttr(a: Entry<bytes>): G.Attr {
    G.Attr(Ascii(" "), a.key, [], [], '\"' as int, WrittenAll(a.value, true))
  }

  function CompactAttrs(attrs: seq<Entry<bytes>>): seq<G.Attr> {
    if attrs == [] then [] else [CompactAttr(attrs[0])] + CompactAttrs(attrs[1..])
  }

  /** The text for an element. */
  function Compact(e: Element): G.Node
    decreases e
  {
    if e.children == [] && e.text == [] then G.Node(e.name, CompactAttrs(e.attrs), Ascii(" "), G.Closed)
    else G.Node(e.name, CompactAttrs(e.attrs), [], G.Open([], WrittenAll(e.text, false), CompactParts(e.children)))
  }

  function CompactParts(es: seq<Element>): seq<G.Part>
    decreases es
  {
    if es == [] then [] else [G.Child(Compact(es[0]), [])] + CompactParts(es[1..])
  }

  lemma {:induction false} WrittenIs(b: byte, quotes: bool)
    ensures G.UnitText(Written(b, quotes)) == Escaped(b, quotes)
  {
    EntityTexts();
  }

  lemma {:induction false} WrittenText(s: bytes, quotes: bool)
    ensures G.UnitsText(WrittenAll(s, quotes)) == Escape(s, quotes)
    decreases |s|
  {
    if s != [] {
      WrittenIs(s[0], quotes);
      WrittenText(s[1..], quotes);
    }
  }

  lemma {:induction false} AttrShape(key: bytes, value: bytes)
    ensures [SPACE] + key + [] + [EQ] + [] + [QUOTE] + value + [QUOTE] == [SPACE] + key + [EQ, QUOTE] + value + [QUOTE]
  {
    assert [SPACE] + key + [] + [EQ] + [] + [QUOTE] == [SPACE] + key + [EQ, QUOTE];
  }

  lemma {:induction false} PrintAttrIs(a: Entry<bytes>)
    requires IsName(a.key)
    ensures PrintAttr(a) == G.AttrText(CompactAttr(a))
  {
    XmlExact.TagMarks();
    assert Ascii(" ") == [SPACE];
    XmlRound.EscapeName(a.key);
    WrittenText(a.value, true);
    AttrShape(a.key, Escape(a.value, true));
  }

  lemma {:induction false} PrintAttrsIs(attrs: seq<Entry<bytes>>)
    requires forall i | 0 <= i < |attrs| :: IsName(attrs[i].key)
    ensures PrintAttrs(attrs) == G.AttrsText(CompactAttrs(attrs))
    decreases |attrs|
  {
    if attrs != [] {
      PrintAttrIs(attrs[0]);
      PrintAttrsIs(attrs[1..]);
    }
  }

  lemma {:induction false} ClosedShape(front: bytes)
    ensures front + [SPACE] + [SLASH, GT] == front + [SPACE, SLASH, GT]
  {
  }

  lemma {:induction false} OpenShape(front: bytes, text: bytes, parts: bytes, name: bytes)
    ensures front + [] + ([GT] + [] + text + parts + [LT, SLASH] + name + [GT]) ==
            front + ([GT] + text + parts + EndTag(name))
  {
    assert [GT] + [] + text == [GT] + text;
    var x := [GT] + text + parts;
    assert x + [LT, SLASH] + name + [GT] == x + ([LT, SLASH] + name + [GT]);
    assert front + [] == front;
  }

  /** The printer writes this text. */
  lemma {:induction false} PrintIs(e: Element)
    requires Legal(e)
    ensures Print(e) == G.Text(Compact(e))
    decreases e
  {
    XmlExact.TagMarks();
    XmlRound.EscapeName(e.name);
    PrintAttrsIs(e.attrs);
    var front := [LT] + e.name + PrintAttrs(e.attrs);
    if e.children == [] && e.text == [] {
      assert Ascii(" ") == [SPACE];
      ClosedShape(front);
    } else {
      WrittenText(e.text, false);
      PrintAllIs(e.children);
      OpenShape(front, Escape(e.text, false), PrintAll(e.children), e.name);
    }
  }

  lemma {:induction false} PrintAllIs(es: seq<Element>)
    requires forall i | 0 <= i < |es| :: Legal(es[i])
    ensures PrintAll(es) == G.PartsText(CompactParts(es))
    decreases es
  {
    if es != [] {
      PrintIs(es[0]);
      PrintAllIs(es[1..]);
      assert Print(es[0]) + [] == Print(es[0]);
    }
  }
}
