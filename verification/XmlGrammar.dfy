/** The grammar of the XML texts that are accepted, as trees that keep every byte of the text: spaces,
    quotes, comments, and the spelling of references. */
module XmlGrammar {
  import opened Bytes
  import opened Notation
  import X = XmlText

  // ---------------------------------------------------------------- character data

  /** A byte that stands for itself, a predefined entity, or a reference to the character n in decimal
      or hexadecimal digits. */
  datatype Unit =
    | Plain(b: byte)
    | Named(name: bytes, b: byte)
    | Decimal(digits: bytes, n: int)
    | Hex(mark: byte, digits: bytes, n: int)

  /** The entities and what they stand for. */
  predicate IsEntity(name: bytes, b: byte) {
    || (name == Ascii("amp") && b == '&' as int)
    || (name == Ascii("lt") && b == '<' as int)
    || (name == Ascii("gt") && b == '>' as int)
    || (name == Ascii("quot") && b == '\"' as int)
    || (name == Ascii("apos") && b == '\'' as int)
  }

  /** A character that can be referred to. */
  predicate IsCharacter(n: int) {
    0 < n <= 0x10FFFF && !(0xD800 <= n <= 0xDFFF)
  }

  predicate UnitOk(u: Unit) {
    match u
    case Plain(_) => true
    case Named(name, b) => IsEntity(name, b)
    case Decimal(digits, n) => digits != [] && Numeral(digits, 10, n) && IsCharacter(n)
    case Hex(mark, digits, n) => mark in Ascii("xX") && digits != [] && Numeral(digits, 16, n) && IsCharacter(n)
  }

  function UnitText(u: Unit): bytes {
    match u
    case Plain(b) => [b]
    case Named(name, _) => Ascii("&") + name + Ascii(";")
    case Decimal(digits, _) => Ascii("&#") + digits + Ascii(";")
    case Hex(mark, digits, _) => Ascii("&#") + [mark] + digits + Ascii(";")
  }

  function UnitBytes(u: Unit): bytes {
    match u
    case Plain(b) => [b]
    case Named(_, b) => [b]
    case Decimal(_, n) => Character(n)
    case Hex(_, _, n) => Character(n)
  }

  function Character(n: int): bytes {
    if IsScalar(n) then Utf8(n) else []
  }

  function UnitsText(us: seq<Unit>): bytes {
    if us == [] then [] else UnitText(us[0]) + UnitsText(us[1..])
  }

  function UnitsBytes(us: seq<Unit>): bytes {
    if us == [] then [] else UnitBytes(us[0]) + UnitsBytes(us[1..])
  }

  predicate IsReference(u: Unit, text: bytes) {
    !u.Plain? && UnitOk(u) && UnitText(u) <= text
  }

  /** An ampersand stands for itself only where no reference starts. */
  ghost predicate UnitsOk(us: seq<Unit>) {
    us != [] ==>
      && UnitOk(us[0]) && UnitsOk(us[1..])
      && (us[0] == Plain('&' as int) ==> forall u :: !IsReference(u, UnitsText(us)))
  }

  // ---------------------------------------------------------------- tags

  predicate IsLetter(b: byte) {
    'a' as int <= b <= 'z' as int || 'A' as int <= b <= 'Z' as int || b == '_' as int
  }

  predicate IsNameByte(b: byte) {
    IsLetter(b) || '0' as int <= b <= '9' as int || b == '-' as int || b == ':' as int
  }

  predicate IsName(s: bytes) {
    s != [] && IsLetter(s[0]) && forall i | 0 <= i < |s| :: IsNameByte(s[i])
  }

  /** An attribute: spaces, its key, an equals sign with spaces around it, and its value in quotes. */
  datatype Attr = Attr(before: bytes, key: bytes, left: bytes, right: bytes, quote: byte, value: seq<Unit>)

  ghost predicate AttrOk(a: Attr) {
    && Spaces(a.before) && IsName(a.key) && Spaces(a.left) && Spaces(a.right) && a.quote in Ascii("\"\'")
    && UnitsOk(a.value) && a.quote !in UnitsText(a.value)
  }

  function AttrText(a: Attr): bytes {
    a.before + a.key + a.left + Ascii("=") + a.right + [a.quote] + UnitsText(a.value) + [a.quote]
  }

  function AttrsText(xs: seq<Attr>): bytes {
    if xs == [] then [] else AttrText(xs[0]) + AttrsText(xs[1..])
  }

  /** No key is written twice. */
  predicate Distinct(xs: seq<Attr>) {
    forall i, j | 0 <= i < j < |xs| :: xs[i].key != xs[j].key
  }

  function Assigned(xs: seq<Attr>, attrs: seq<Entry<bytes>>): seq<Entry<bytes>>
    decreases xs
  {
    if xs == [] then attrs else Assigned(xs[1..], Put(attrs, xs[0].key, UnitsBytes(xs[0].value)))
  }

  // ---------------------------------------------------------------- elements

  /** A start tag with its end: `gap` are the spaces in front of the bracket. */
  datatype Node = Node(name: bytes, attrs: seq<Attr>, gap: bytes, body: Body)

  /** An element that ends with its start tag, or text and parts in front of an end tag. */
  datatype Body = Closed | Open(lead: bytes, text: seq<Unit>, parts: seq<Part>)

  /** A comment or a child, and the spaces behind it: there is no text behind a child. */
  datatype Part = Comment(inner: bytes, after: bytes) | Child(node: Node, after: bytes)

  predicate IsAt(s: bytes, i: nat, t: bytes) {
    i + |t| <= |s| && s[i..i + |t|] == t
  }

  /** t is nowhere in s. */
  predicate Lacks(s: bytes, t: bytes) {
    forall i | 0 <= i <= |s| :: !IsAt(s, i, t)
  }

  ghost predicate NodeOk(n: Node) {
    && IsName(n.name) && Spaces(n.gap)
    && (forall i | 0 <= i < |n.attrs| :: AttrOk(n.attrs[i])) && Distinct(n.attrs)
    && (n.attrs != [] ==> n.attrs[0].before != [])
    && BodyOk(n.body)
  }

  ghost predicate BodyOk(b: Body) {
    b.Open? ==>
      && Spaces(b.lead) && TextOk(b.text)
      && forall i | 0 <= i < |b.parts| :: PartOk(b.parts[i])
  }

  /** Text does not start with spaces, and holds no tag. */
  ghost predicate TextOk(us: seq<Unit>) {
    && UnitsOk(us) && '<' as int !in UnitsText(us)
    && (UnitsText(us) != [] ==> !IsBlank(UnitsText(us)[0]))
  }

  ghost predicate PartOk(p: Part) {
    match p
    case Comment(inner, after) => Lacks(inner, Ascii("-->")) && Spaces(after)
    case Child(node, after) => NodeOk(node) && Spaces(after)
  }

  function Text(n: Node): bytes {
    Ascii("<") + n.name + AttrsText(n.attrs) + n.gap + BodyText(n.body, n.name)
  }

  function BodyText(b: Body, name: bytes): bytes {
    match b
    case Closed => Ascii("/>")
    case Open(lead, text, parts) =>
      Ascii(">") + lead + UnitsText(text) + PartsText(parts) + Ascii("</") + name + Ascii(">")
  }

  function PartText(p: Part): bytes {
    match p
    case Comment(inner, after) => Ascii("<!--") + inner + Ascii("-->") + after
    case Child(node, after) => Text(node) + after
  }

  function PartsText(ps: seq<Part>): bytes {
    if ps == [] then [] else PartText(ps[0]) + PartsText(ps[1..])
  }

  function Max(a: nat, b: nat): nat {
    if a < b then b else a
  }

  function Levels(n: Node): nat {
    1 + if n.body.Closed? then 0 else PartsLevels(n.body.parts)
  }

  function PartsLevels(ps: seq<Part>): nat {
    if ps == [] then 0 else Max(if ps[0].Child? then Levels(ps[0].node) else 0, PartsLevels(ps[1..]))
  }

  /** The element that a text stands for: comments and spaces do not count. */
  function Meaning(n: Node): X.Element {
    match n.body
    case Closed => X.Element(n.name, [], Assigned(n.attrs, []), [])
    case Open(_, text, parts) => X.Element(n.name, UnitsBytes(text), Assigned(n.attrs, []), Children(parts))
  }

  function Children(ps: seq<Part>): seq<X.Element> {
    if ps == [] then [] else (if ps[0].Child? then [Meaning(ps[0].node)] else []) + Children(ps[1..])
  }

  // ---------------------------------------------------------------- documents

  /** A comment or a processing instruction outside the root, and the spaces behind it. */
  datatype Misc = Remark(inner: bytes, after: bytes) | Instruction(inner: bytes, after: bytes)

  /** The question mark of `<?` may be that of `?>`. */
  predicate MiscOk(m: Misc) {
    && Spaces(m.after)
    && if m.Remark? then Lacks(m.inner, Ascii("-->"))
       else Lacks(m.inner, Ascii("?>")) && (m.inner == [] || m.inner[0] == '?' as int)
  }

  predicate MiscsOk(ms: seq<Misc>) {
    forall i | 0 <= i < |ms| :: MiscOk(ms[i])
  }

  function MiscText(m: Misc): bytes {
    match m
    case Remark(inner, after) => Ascii("<!--") + inner + Ascii("-->") + after
    case Instruction(inner, after) => Ascii("<") + inner + Ascii("?>") + after
  }

  function MiscsText(ms: seq<Misc>): bytes {
    if ms == [] then [] else MiscText(ms[0]) + MiscsText(ms[1..])
  }

  datatype Doc = Doc(mark: bool, lead: bytes, before: seq<Misc>, root: Node, after: bytes, behind: seq<Misc>)

  ghost predicate DocOk(d: Doc) {
    Spaces(d.lead) && MiscsOk(d.before) && NodeOk(d.root) && Spaces(d.after) && MiscsOk(d.behind)
  }

  /** A byte order mark, spaces, comments and processing instructions, the root, and more of these. */
  function DocText(d: Doc): bytes {
    (if d.mark then [0xEF, 0xBB, 0xBF] else []) + d.lead + MiscsText(d.before) + Text(d.root) + d.after +
    MiscsText(d.behind)
  }

  ghost predicate IsText(s: bytes, d: Doc) {
    DocOk(d) && Levels(d.root) <= 128 && s == DocText(d)
  }

  ghost predicate Denotes(s: bytes, e: X.Element) {
    exists d :: IsText(s, d) && Meaning(d.root) == e
  }
}
