/** XML trees and their text: what the printer writes and what the parser accepts. */
module XmlText {
  import opened Bytes

  const AMP: byte := 0x26
  const APOS: byte := 0x27
  const DASH: byte := 0x2D
  const SLASH: byte := 0x2F
  const SEMI: byte := 0x3B
  const COLON: byte := 0x3A
  const LT: byte := 0x3C
  const EQ: byte := 0x3D
  const GT: byte := 0x3E
  const QUESTION: byte := 0x3F
  const UNDERSCORE: byte := 0x5F
  const HASH: byte := 0x23

  const AMP_REF: bytes := [AMP, 0x61, 0x6D, 0x70, SEMI]
  const LT_REF: bytes := [AMP, 0x6C, 0x74, SEMI]
  const GT_REF: bytes := [AMP, 0x67, 0x74, SEMI]
  const QUOT_REF: bytes := [AMP, 0x71, 0x75, 0x6F, 0x74, SEMI]
  const APOS_REF: bytes := [AMP, 0x61, 0x70, 0x6F, 0x73, SEMI]

  const BOM: bytes := [0xEF, 0xBB, 0xBF]
  const PI_CLOSE: bytes := [QUESTION, GT]
  const COMMENT_OPEN: bytes := [LT, 0x21, DASH, DASH]
  const COMMENT_CLOSE: bytes := [DASH, DASH, GT]

  const K_MAX_DEPTH := 128

  // ---------------------------------------------------------------- trees

  datatype Element = Element(name: bytes, text: bytes, attrs: seq<Entry<bytes>>, children: seq<Element>)

  predicate IsAlpha(b: byte) {
    0x41 <= b <= 0x5A || 0x61 <= b <= 0x7A
  }

  predicate IsNameStart(b: byte) {
    IsAlpha(b) || b == UNDERSCORE
  }

  predicate IsNameByte(b: byte) {
    IsNameStart(b) || 0x30 <= b <= 0x39 || b == DASH || b == COLON
  }

  /** A name or a key that the parser can read. */
  predicate IsName(s: bytes) {
    s != [] && IsNameStart(s[0]) && forall i | 0 <= i < |s| :: IsNameByte(s[i])
  }

  predicate Legal(e: Element) {
    && IsName(e.name) && Sorted(e.attrs)
    && (forall i | 0 <= i < |e.attrs| :: IsName(e.attrs[i].key))
    && (forall i | 0 <= i < |e.children| :: Legal(e.children[i]))
  }

  function Max(a: nat, b: nat): nat {
    if a < b then b else a
  }

  /** How many levels of elements there are. */
  function Levels(e: Element): nat
    decreases e
  {
    1 + ChildLevels(e.children)
  }

  function ChildLevels(es: seq<Element>): nat
    decreases es
  {
    if es == [] then 0 else Max(Levels(es[0]), ChildLevels(es[1..]))
  }

  // ---------------------------------------------------------------- printing

  function Escaped(b: byte, quotes: bool): bytes {
    if b == AMP then AMP_REF
    else if b == LT then LT_REF
    else if b == GT then GT_REF
    else if quotes && b == QUOTE then QUOT_REF
    else [b]
  }

  function Escape(s: bytes, quotes: bool): bytes {
    if s == [] then [] else Escaped(s[0], quotes) + Escape(s[1..], quotes)
  }

  function PrintAttr(a: Entry<bytes>): bytes {
    [SPACE] + Escape(a.key, true) + [EQ, QUOTE] + Escape(a.value, true) + [QUOTE]
  }

  function PrintAttrs(attrs: seq<Entry<bytes>>): bytes {
    if attrs == [] then [] else PrintAttr(attrs[0]) + PrintAttrs(attrs[1..])
  }

  function EndTag(name: bytes): bytes {
    [LT, SLASH] + name + [GT]
  }

  /** to_string */
  function Print(e: Element): bytes
    decreases e
  {
    if e.name == [] then []
    else
      var name := Escape(e.name, true);
      [LT] + name + PrintAttrs(e.attrs) +
      if e.children == [] && e.text == [] then [SPACE, SLASH, GT]
      else [GT] + Escape(e.text, false) + PrintAll(e.children) + EndTag(name)
  }

  function PrintAll(es: seq<Element>): bytes
    decreases es
  {
    if es == [] then [] else Print(es[0]) + PrintAll(es[1..])
  }

  // ---------------------------------------------------------------- references

  /** The value of a digit, or -1. */
  function Digit(b: byte, hex: bool): (d: int)
    ensures -1 <= d < (if hex then 16 else 10)
  {
    if 0x30 <= b <= 0x39 then b - 0x30
    else if hex && 0x61 <= b <= 0x66 then b - 0x61 + 10
    else if hex && 0x41 <= b <= 0x46 then b - 0x41 + 10
    else -1
  }

  function DigitEnd(s: bytes, i: nat, hex: bool): (j: nat)
    requires i <= |s|
    ensures i <= j <= |s| && (forall k | i <= k < j :: Digit(s[k], hex) >= 0) && (j < |s| ==> Digit(s[j], hex) < 0)
    decreases |s| - i
  {
    if i < |s| && Digit(s[i], hex) >= 0 then DigitEnd(s, i + 1, hex) else i
  }

  /** The number that the digits from i to j stand for. */
  function RunValue(s: bytes, i: nat, j: nat, hex: bool): (n: nat)
    requires i <= j <= |s| && forall k | i <= k < j :: Digit(s[k], hex) >= 0
    decreases j
  {
    if i == j then 0 else RunValue(s, i, j - 1, hex) * (if hex then 16 else 10) + Digit(s[j - 1], hex)
  }

  datatype Ref = Ref(cp: int, len: nat)

  /** A numeric character reference at the front of s: a terminated run of digits that stands for a
      character other than NUL. */
  function NumericRef(s: bytes): (r: Option<Ref>)
    ensures r.Some? ==> IsScalar(r.v.cp) && 0 < r.v.len <= |s|
  {
    if |s| < 2 || s[1] != HASH then None
    else
      var hex := |s| > 2 && (s[2] == 0x78 || s[2] == 0x58);
      var i := if hex then 3 else 2;
      var j := DigitEnd(s, i, hex);
      if j == i || j == |s| || s[j] != SEMI then None
      else
        var cp := RunValue(s, i, j, hex);
        if cp == 0 || !IsScalar(cp) then None else Some(Ref(cp, j + 1))
  }

  datatype Unit = Unit(out: bytes, len: nat)

  /** What is decoded first, and how many bytes it takes: a predefined entity, a numeric reference,
      or a single byte. */
  function FirstUnit(s: bytes): (u: Unit)
    requires s != []
    ensures 0 < u.len <= |s|
  {
    if s[0] != AMP then Unit([s[0]], 1)
    else if StartsWith(s, AMP_REF) then Unit([AMP], 5)
    else if StartsWith(s, LT_REF) then Unit([LT], 4)
    else if StartsWith(s, GT_REF) then Unit([GT], 4)
    else if StartsWith(s, QUOT_REF) then Unit([QUOTE], 6)
    else if StartsWith(s, APOS_REF) then Unit([APOS], 6)
    else
      match NumericRef(s)
      case None => Unit([AMP], 1)
      case Some(ref) => Unit(Utf8(ref.cp), ref.len)
  }

  /** decode_entities */
  function Decode(s: bytes): bytes
    decreases |s|
  {
    if s == [] then [] else FirstUnit(s).out + Decode(s[FirstUnit(s).len..])
  }

  // ---------------------------------------------------------------- parsing

  /** What is in front of the first b, and the input from that b on. */
  function UpTo(s: bytes, b: byte): (r: Res<bytes>)
    ensures r.Got? ==> |r.rest| <= |s| && r.rest != [] && r.rest[0] == b
  {
    if s == [] then Fail
    else if s[0] == b then Got([], s)
    else
      match UpTo(s[1..], b)
      case Fail => Fail
      case Got(x, rest) => Got([s[0]] + x, rest)
  }

  /** The input behind the first occurrence of t. */
  function Past(s: bytes, t: bytes): (r: Option<bytes>)
    requires t != []
    ensures r.Some? ==> |r.v| < |s|
  {
    if StartsWith(s, t) then Some(s[|t|..]) else if s == [] then None else Past(s[1..], t)
  }

  function NameEnd(s: bytes, i: nat): (j: nat)
    requires i <= |s|
    ensures i <= j <= |s| && (forall k | i <= k < j :: IsNameByte(s[k])) && (j < |s| ==> !IsNameByte(s[j]))
    decreases |s| - i
  {
    if i < |s| && IsNameByte(s[i]) then NameEnd(s, i + 1) else i
  }

  /** A name at the front. */
  function Name(s: bytes): (r: Res<bytes>)
    ensures r.Got? ==> |r.rest| < |s|
  {
    if s == [] || !IsNameStart(s[0]) then Fail else Got(s[..NameEnd(s, 1)], s[NameEnd(s, 1)..])
  }

  predicate HasKey(attrs: seq<Entry<bytes>>, key: bytes) {
    exists i | 0 <= i < |attrs| :: attrs[i].key == key
  }

  /** A quoted attribute value, decoded. */
  function Quoted(s: bytes): (r: Res<bytes>)
    ensures r.Got? ==> |r.rest| < |s|
  {
    if s == [] || (s[0] != QUOTE && s[0] != APOS) then Fail
    else
      match UpTo(s[1..], s[0])
      case Fail => Fail
      case Got(x, rest) => Got(Decode(x), rest[1..])
  }

  /** What is behind the equals sign of an attribute. */
  function AttrValue(s: bytes): (r: Res<bytes>)
    ensures r.Got? ==> |r.rest| < |s|
  {
    Quoted(SkipSpaces(s))
  }

  datatype Tag = Tag(attrs: seq<Entry<bytes>>, empty: bool)

  /** The rest of a start tag, behind the name; `acc` are the attributes read so far. */
  function Attrs(s: bytes, acc: seq<Entry<bytes>>): (r: Res<Tag>)
    ensures r.Got? ==> |r.rest| < |s|
    decreases |s|
  {
    var t := SkipSpaces(s);
    if t == [] then Fail
    else if t[0] == GT then Got(Tag(acc, false), t[1..])
    else if t[0] == SLASH then (if |t| > 1 && t[1] == GT then Got(Tag(acc, true), t[2..]) else Fail)
    else
      match Name(t)
      case Fail => Fail
      case Got(key, rest) =>
        var u := SkipSpaces(rest);
        if u == [] || u[0] != EQ || HasKey(acc, key) then Fail
        else
          match AttrValue(u[1..])
          case Fail => Fail
          case Got(value, rest') => Attrs(rest', Put(acc, key, value))
  }

  predicate IsElementStart(s: bytes) {
    |s| > 1 && s[0] == LT && IsNameStart(s[1])
  }

  /** Text up to the next tag, without spaces in front of it. */
  function Text(s: bytes): (r: Res<bytes>)
    ensures r.Got? ==> |r.rest| <= |s| && r.rest != []
  {
    UpTo(SkipSpaces(s), LT)
  }

  /** parse_element */
  function ElementAt(s: bytes, depth: nat): (r: Res<Element>)
    requires s != []
    ensures r.Got? ==> |r.rest| < |s|
    decreases |s|, 1
  {
    if depth >= K_MAX_DEPTH then Fail
    else
      match Name(s[1..])
      case Fail => Fail
      case Got(name, rest) => AfterName(rest, name, depth)
  }

  /** parse_element, behind the name. */
  function AfterName(s: bytes, name: bytes, depth: nat): (r: Res<Element>)
    ensures r.Got? ==> |r.rest| < |s|
    decreases |s|, 1
  {
    match Attrs(s, [])
    case Fail => Fail
    case Got(tag, rest) =>
      if tag.empty then Got(Element(name, [], tag.attrs, []), rest)
      else
        match Text(rest)
        case Fail => Fail
        case Got(text, rest') =>
          match Children(rest', name, depth, [])
          case Fail => Fail
          case Got(children, end) => Got(Element(name, Decode(text), tag.attrs, children), end)
  }

  /** The children that are left, up to the end tag. */
  function Children(s: bytes, name: bytes, depth: nat, acc: seq<Element>): (r: Res<seq<Element>>)
    ensures r.Got? ==> |r.rest| < |s|
    decreases |s|, 2
  {
    var t := SkipSpaces(s);
    if t == [] || t[0] != LT then Fail
    else if |t| > 1 && t[1] == SLASH then (if StartsWith(t, EndTag(name)) then Got(acc, t[|EndTag(name)|..]) else Fail)
    else if StartsWith(t, COMMENT_OPEN) then
      match Past(t[4..], COMMENT_CLOSE)
      case None => Fail
      case Some(rest) => Children(rest, name, depth, acc)
    else if !IsElementStart(t) then Fail
    else
      match ElementAt(t, depth + 1)
      case Fail => Fail
      case Got(child, rest) =>
        match Text(rest)
        case Fail => Fail
        case Got(tail, rest') => if tail != [] then Fail else Children(rest', name, depth, acc + [child])
  }

  lemma {:induction false} BodyStep(s: bytes, name: bytes, tail: bytes, depth: nat)
    requires s != [] && depth < K_MAX_DEPTH && Name(s[1..]) == Got(name, tail)
    ensures ElementAt(s, depth) == AfterName(tail, name, depth)
  {
  }

  /** Comments and processing instructions around the root, and the spaces behind each. */
  function Misc(s: bytes): (r: Option<bytes>)
    ensures r.Some? ==> |r.v| <= |s|
    decreases |s|
  {
    if StartsWith(s, COMMENT_OPEN) then
      match Past(s[4..], COMMENT_CLOSE)
      case None => None
      case Some(rest) => Misc(SkipSpaces(rest))
    else if |s| > 1 && s[0] == LT && s[1] == QUESTION then
      match Past(s, PI_CLOSE)
      case None => None
      case Some(rest) => Misc(SkipSpaces(rest))
    else Some(s)
  }

  /** parse: an optional byte order mark, declaration, comments and processing instructions, the root
      element, and more comments and processing instructions.  (The declaration is skipped like a
      processing instruction.) */
  function Document(s: bytes): Option<Element> {
    match Misc(SkipSpaces(if StartsWith(s, BOM) then s[3..] else s))
    case None => None
    case Some(t) =>
      if !IsElementStart(t) then None
      else
        match ElementAt(t, 0)
        case Fail => None
        case Got(root, rest) => if Misc(SkipSpaces(rest)) == Some([]) then Some(root) else None
  }
}
