/** The grammar of JSON texts (RFC 8259), as trees that keep every byte of the text: its spaces, the
    spelling of its strings and the digits of its numbers. */
module JsonGrammar {
  import opened Bytes
  import opened Notation
  import J = JsonText

  // ---------------------------------------------------------------- strings

  /** What stands for one character or one byte of a string: itself, a backslash and one character, a
      backslash, `u` and four hexadecimal digits for the number n, or two such groups. */
  datatype Letter =
    | Plain(b: byte)
    | Short(b: byte)
    | Escape(quad: bytes, n: int)
    | Pair(high: bytes, h: int, low: bytes, l: int)

  predicate IsQuad(quad: bytes, n: int) {
    |quad| == 4 && Numeral(quad, 16, n)
  }

  predicate LetterOk(c: Letter) {
    match c
    case Plain(b) => b >= 0x20 && b !in Ascii("\"\\")
    case Short(b) => b in Ascii("\"\\/bfnrt")
    case Escape(quad, n) => IsQuad(quad, n) && !(0xD800 <= n <= 0xDFFF)
    case Pair(high, h, low, l) => IsQuad(high, h) && 0xD800 <= h <= 0xDBFF && IsQuad(low, l) && 0xDC00 <= l <= 0xDFFF
  }

  function LetterText(c: Letter): bytes {
    match c
    case Plain(b) => [b]
    case Short(b) => Ascii("\\") + [b]
    case Escape(quad, _) => Ascii("\\u") + quad
    case Pair(high, _, low, _) => Ascii("\\u") + high + Ascii("\\u") + low
  }

  /** The bytes that a letter stands for. */
  function LetterBytes(c: Letter): bytes {
    match c
    case Plain(b) => [b]
    case Short(b) =>
      if b == 'b' as int then [8]
      else if b == 'f' as int then [12]
      else if b == 'n' as int then [10]
      else if b == 'r' as int then [13]
      else if b == 't' as int then [9]
      else [b]
    case Escape(_, n) => Scalar(n)
    case Pair(_, h, _, l) => Scalar(0x10000 + (h - 0xD800) * 0x400 + (l - 0xDC00))
  }

  /** The character with this number, in UTF-8. */
  function Scalar(n: int): bytes {
    if IsScalar(n) then Utf8(n) else []
  }

  predicate LettersOk(cs: seq<Letter>) {
    forall i | 0 <= i < |cs| :: LetterOk(cs[i])
  }

  function LettersText(cs: seq<Letter>): bytes {
    if cs == [] then [] else LetterText(cs[0]) + LettersText(cs[1..])
  }

  function LettersBytes(cs: seq<Letter>): bytes {
    if cs == [] then [] else LetterBytes(cs[0]) + LettersBytes(cs[1..])
  }

  function StringText(cs: seq<Letter>): bytes {
    Ascii("\"") + LettersText(cs) + Ascii("\"")
  }

  // ---------------------------------------------------------------- numbers

  /** The exponent of a number: its letter, its sign and its digits. */
  datatype Power = Power(mark: byte, sign: bytes, digits: bytes)

  /** A number: a minus sign, the digits of its integer part, those behind the point, and an exponent. */
  datatype Figure = Figure(minus: bool, whole: bytes, frac: Option<bytes>, power: Option<Power>)

  predicate AreDigits(s: bytes) {
    s != [] && forall i | 0 <= i < |s| :: s[i] in Ascii("0123456789")
  }

  predicate PowerOk(p: Power) {
    && p.mark in Ascii("eE") && AreDigits(p.digits)
    && (p.sign == [] || p.sign == Ascii("+") || p.sign == Ascii("-"))
  }

  predicate FigureOk(f: Figure) {
    && AreDigits(f.whole) && (|f.whole| > 1 ==> f.whole[0] != '0' as int)
    && (f.frac.Some? ==> AreDigits(f.frac.v))
    && (f.power.Some? ==> PowerOk(f.power.v))
  }

  function SignText(minus: bool): bytes {
    if minus then Ascii("-") else []
  }

  function FracText(frac: Option<bytes>): bytes {
    if frac.None? then [] else Ascii(".") + frac.v
  }

  function PowerText(power: Option<Power>): bytes {
    if power.None? then [] else [power.v.mark] + power.v.sign + power.v.digits
  }

  function FigureText(f: Figure): bytes {
    SignText(f.minus) + f.whole + FracText(f.frac) + PowerText(f.power)
  }

  /** What may follow a number: nothing that could be more of it. */
  predicate Stops(f: Figure, rest: bytes) {
    rest != [] ==>
      && rest[0] !in Ascii("0123456789")
      && (f.power.None? ==> rest[0] !in Ascii("eE"))
      && (f.power.None? && f.frac.None? ==> rest[0] != '.' as int)
  }

  /** A number that is not part of a longer one. */
  predicate IsFigure(f: Figure, text: bytes, rest: bytes) {
    FigureOk(f) && text == FigureText(f) && Stops(f, rest)
  }

  /** The number is m times ten to the power of e, without its sign. */
  predicate Worth(f: Figure, m: int, e: int) {
    var frac := if f.frac.None? then [] else f.frac.v;
    && Numeral(f.whole + frac, 10, m)
    && match f.power
       case None => e + |frac| == 0
       case Some(p) => Numeral(p.digits, 10, if p.sign == Ascii("-") then -(e + |frac|) else e + |frac|)
  }

  /** m * 10^e is less than 2^1024 - 2^970: it is not rounded to infinity. */
  predicate Below(m: int, e: int) {
    if e >= 0 then m * Raised(10, e) < Raised(2, 1024) - Raised(2, 970)
    else m < (Raised(2, 1024) - Raised(2, 970)) * Raised(10, -e)
  }

  predicate IsInteger(f: Figure) {
    f.frac.None? && f.power.None?
  }

  function Signed(f: Figure, m: int): int {
    if f.minus then -m else m
  }

  predicate InRange(f: Figure, m: int, e: int) {
    if IsInteger(f) then -0x8000_0000_0000_0000 <= Signed(f, m) <= 0x7FFF_FFFF_FFFF_FFFF else Below(m, e)
  }

  // ---------------------------------------------------------------- values

  /** The text of a value.  `gap` are the spaces between empty brackets; all other spaces are around the
      items. */
  datatype Tree =
    | TNull
    | TBool(b: bool)
    | TNumber(f: Figure, m: int, e: int)
    | TString(letters: seq<Letter>)
    | TArray(gap: bytes, items: seq<Item>)
    | TObject(gap: bytes, fields: seq<Field>)

  /** A value in an array, and the spaces around it. */
  datatype Item = Item(before: bytes, value: Tree, after: bytes)

  /** A name and a value in an object, and the spaces around them and around the colon. */
  datatype Field = Field(before: bytes, key: seq<Letter>, between: bytes, value: Item)

  predicate TreeOk(t: Tree) {
    match t
    case TNull => true
    case TBool(_) => true
    case TNumber(f, m, e) => FigureOk(f) && Worth(f, m, e) && InRange(f, m, e)
    case TString(letters) => LettersOk(letters)
    case TArray(gap, items) => Spaces(gap) && forall i | 0 <= i < |items| :: ItemOk(items[i])
    case TObject(gap, fields) => Spaces(gap) && forall i | 0 <= i < |fields| :: FieldOk(fields[i])
  }

  predicate ItemOk(x: Item) {
    Spaces(x.before) && TreeOk(x.value) && Spaces(x.after)
  }

  predicate FieldOk(x: Field) {
    Spaces(x.before) && LettersOk(x.key) && Spaces(x.between) && ItemOk(x.value)
  }

  function Text(t: Tree): bytes {
    match t
    case TNull => Ascii("null")
    case TBool(b) => if b then Ascii("true") else Ascii("false")
    case TNumber(f, _, _) => FigureText(f)
    case TString(letters) => StringText(letters)
    case TArray(gap, items) => Ascii("[") + (if items == [] then gap else ItemsText(items)) + Ascii("]")
    case TObject(gap, fields) => Ascii("{") + (if fields == [] then gap else FieldsText(fields)) + Ascii("}")
  }

  function ItemText(x: Item): bytes {
    x.before + Text(x.value) + x.after
  }

  function ItemsText(xs: seq<Item>): bytes {
    if xs == [] then []
    else ItemText(xs[0]) + (if |xs| == 1 then [] else Ascii(",") + ItemsText(xs[1..]))
  }

  function FieldText(x: Field): bytes {
    x.before + StringText(x.key) + x.between + Ascii(":") + ItemText(x.value)
  }

  function FieldsText(xs: seq<Field>): bytes {
    if xs == [] then []
    else FieldText(xs[0]) + (if |xs| == 1 then [] else Ascii(",") + FieldsText(xs[1..]))
  }

  function Max(a: nat, b: nat): nat {
    if a < b then b else a
  }

  /** How deep the brackets are nested. */
  function Nesting(t: Tree): nat {
    match t
    case TArray(_, items) => 1 + ItemsNesting(items)
    case TObject(_, fields) => 1 + FieldsNesting(fields)
    case _ => 0
  }

  function ItemsNesting(xs: seq<Item>): nat {
    if xs == [] then 0 else Max(Nesting(xs[0].value), ItemsNesting(xs[1..]))
  }

  function FieldsNesting(xs: seq<Field>): nat {
    if xs == [] then 0 else Max(Nesting(xs[0].value.value), FieldsNesting(xs[1..]))
  }

  /** The value that a text stands for. */
  function Meaning(t: Tree): J.Json {
    match t
    case TNull => J.JNull
    case TBool(b) => J.JBool(b)
    case TNumber(f, m, _) => if IsInteger(f) then J.JInt(Signed(f, m)) else J.JReal(FigureText(f))
    case TString(letters) => J.JStr(LettersBytes(letters))
    case TArray(_, items) => J.JArr(Meanings(items))
    case TObject(_, fields) => J.JObj(Assigned(fields, []))
  }

  function Meanings(xs: seq<Item>): seq<J.Json> {
    if xs == [] then [] else [Meaning(xs[0].value)] + Meanings(xs[1..])
  }

  /** The members, after one assignment for each field. */
  function Assigned(xs: seq<Field>, members: seq<J.Member>): seq<J.Member>
    decreases xs
  {
    if xs == [] then members
    else Assigned(xs[1..], Put(members, LettersBytes(xs[0].key), Meaning(xs[0].value.value)))
  }

  /** s is the text t with spaces around it. */
  predicate IsText(s: bytes, before: bytes, t: Tree, after: bytes) {
    Spaces(before) && TreeOk(t) && Spaces(after) && Nesting(t) <= 512 && s == before + Text(t) + after
  }

  ghost predicate Denotes(s: bytes, v: J.Json) {
    exists before, t, after :: IsText(s, before, t, after) && Meaning(t) == v
  }
}
