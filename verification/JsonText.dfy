/** JSON values and their text: what the printer writes and what the parser accepts. */
module JsonText {
  import opened Bytes

  const PLUS: byte := 0x2B
  const COMMA: byte := 0x2C
  const MINUS: byte := 0x2D
  const DOT: byte := 0x2E
  const SLASH: byte := 0x2F
  const ZERO: byte := 0x30
  const NINE: byte := 0x39
  const COLON: byte := 0x3A
  const UPPER_E: byte := 0x45
  const OPEN_BRACKET: byte := 0x5B
  const BACKSLASH: byte := 0x5C
  const CLOSE_BRACKET: byte := 0x5D
  const LOWER_B: byte := 0x62
  const LOWER_E: byte := 0x65
  const LOWER_F: byte := 0x66
  const LOWER_N: byte := 0x6E
  const LOWER_R: byte := 0x72
  const LOWER_T: byte := 0x74
  const LOWER_U: byte := 0x75
  const OPEN_BRACE: byte := 0x7B
  const CLOSE_BRACE: byte := 0x7D

  const NULL_TEXT: bytes := [0x6E, 0x75, 0x6C, 0x6C]
  const TRUE_TEXT: bytes := [0x74, 0x72, 0x75, 0x65]
  const FALSE_TEXT: bytes := [0x66, 0x61, 0x6C, 0x73, 0x65]

  const K_MAX_DEPTH := 512
  const LLONG_MAX := 0x7FFF_FFFF_FFFF_FFFF
  const LLONG_MIN := -0x8000_0000_0000_0000
  const TWO_194 := 0x4_0000_0000_0000_0000_0000_0000_0000_0000_0000_0000_0000_0000
  const DBL_OVERFLOW := 0x3F_FFFF_FFFF_FFFF * TWO_194 * TWO_194 * TWO_194 * TWO_194 * TWO_194

  // ---------------------------------------------------------------- values

  /** A number with a fraction or an exponent is kept as its text. */
  datatype Json =
    | JNull
    | JBool(b: bool)
    | JInt(i: int)
    | JReal(text: bytes)
    | JStr(s: bytes)
    | JArr(items: seq<Json>)
    | JObj(members: seq<Member>)

  type Member = Entry<Json>

  /** A value that the C++ class can hold. */
  predicate Wf(v: Json) {
    match v
    case JInt(i) => LLONG_MIN <= i <= LLONG_MAX
    case JReal(t) => Finite(t)
    case JArr(items) => forall i | 0 <= i < |items| :: Wf(items[i])
    case JObj(members) => Sorted(members) && forall i | 0 <= i < |members| :: Wf(members[i].value)
    case _ => true
  }

  predicate DoubleFree(v: Json) {
    match v
    case JReal(_) => false
    case JArr(items) => forall i | 0 <= i < |items| :: DoubleFree(items[i])
    case JObj(members) => forall i | 0 <= i < |members| :: DoubleFree(members[i].value)
    case _ => true
  }

  function Max(a: nat, b: nat): nat {
    if a < b then b else a
  }

  /** How deep arrays and objects are nested. */
  function Height(v: Json): nat
    decreases v
  {
    match v
    case JArr(items) => 1 + ItemsHeight(items)
    case JObj(members) => 1 + MembersHeight(members)
    case _ => 0
  }

  function ItemsHeight(items: seq<Json>): nat
    decreases items
  {
    if items == [] then 0 else Max(Height(items[0]), ItemsHeight(items[1..]))
  }

  function MembersHeight(members: seq<Member>): nat
    decreases members
  {
    if members == [] then 0 else Max(Height(members[0].value), MembersHeight(members[1..]))
  }

  // ---------------------------------------------------------------- printing

  /** "%04x" of a control character has a zero, a zero, and these two digits. */
  function HexDigit(n: int): byte
    requires 0 <= n < 16
  {
    if n < 10 then ZERO + n else 0x61 + (n - 10)
  }

  function Escaped(b: byte): bytes {
    if b == QUOTE then [BACKSLASH, QUOTE]
    else if b == BACKSLASH then [BACKSLASH, BACKSLASH]
    else if b == 0x08 then [BACKSLASH, LOWER_B]
    else if b == 0x0C then [BACKSLASH, LOWER_F]
    else if b == NEWLINE then [BACKSLASH, LOWER_N]
    else if b == RETURN then [BACKSLASH, LOWER_R]
    else if b == TAB then [BACKSLASH, LOWER_T]
    else if b < 0x20 then [BACKSLASH, LOWER_U, ZERO, ZERO, HexDigit(b / 16), HexDigit(b % 16)]
    else [b]
  }

  function EscapedBody(s: bytes): bytes {
    if s == [] then [] else Escaped(s[0]) + EscapedBody(s[1..])
  }

  function StringToken(s: bytes): bytes {
    [QUOTE] + EscapedBody(s) + [QUOTE]
  }

  function Digits(n: nat): bytes {
    if n < 10 then [ZERO + n] else Digits(n / 10) + [ZERO + n % 10]
  }

  function IntText(i: int): bytes {
    if i < 0 then [MINUS] + Digits(-i) else Digits(i)
  }

  /** to_string, for values without doubles. */
  function Print(v: Json): bytes
    requires DoubleFree(v)
    decreases v
  {
    match v
    case JNull => NULL_TEXT
    case JBool(b) => if b then TRUE_TEXT else FALSE_TEXT
    case JInt(i) => IntText(i)
    case JStr(s) => StringToken(s)
    case JArr(items) => [OPEN_BRACKET] + PrintItems(items) + [CLOSE_BRACKET]
    case JObj(members) => [OPEN_BRACE] + PrintMembers(members) + [CLOSE_BRACE]
  }

  function PrintItems(items: seq<Json>): bytes
    requires forall i | 0 <= i < |items| :: DoubleFree(items[i])
    decreases items
  {
    if items == [] then []
    else Print(items[0]) + (if |items| == 1 then [] else [COMMA] + PrintItems(items[1..]))
  }

  function PrintMember(m: Member): bytes
    requires DoubleFree(m.value)
    decreases m
  {
    StringToken(m.key) + [COLON] + Print(m.value)
  }

  function PrintMembers(members: seq<Member>): bytes
    requires forall i | 0 <= i < |members| :: DoubleFree(members[i].value)
    decreases members
  {
    if members == [] then []
    else PrintMember(members[0]) + (if |members| == 1 then [] else [COMMA] + PrintMembers(members[1..]))
  }

  // ---------------------------------------------------------------- parsing

  predicate IsDigit(b: byte) {
    ZERO <= b <= NINE
  }

  function Literal(s: bytes, t: bytes, v: Json): (r: Res<Json>)
    requires t != []
    ensures r.Got? ==> |r.rest| < |s|
  {
    if StartsWith(s, t) then Got(v, s[|t|..]) else Fail
  }

  // Strings

  /** The value of a hexadecimal digit, or 16. */
  function Nibble(b: byte): (n: int)
    ensures 0 <= n <= 16
  {
    if IsDigit(b) then b - ZERO
    else if 0x61 <= b <= 0x66 then b - 0x61 + 10
    else if 0x41 <= b <= 0x46 then b - 0x41 + 10
    else 16
  }

  /** Exactly four hexadecimal digits. */
  function Quad(s: bytes): (r: Res<int>)
    ensures r.Got? ==> 0 <= r.v < 0x10000 && |r.rest| < |s|
  {
    if |s| < 4 || Nibble(s[0]) == 16 || Nibble(s[1]) == 16 || Nibble(s[2]) == 16 || Nibble(s[3]) == 16 then Fail
    else Got(((Nibble(s[0]) * 16 + Nibble(s[1])) * 16 + Nibble(s[2])) * 16 + Nibble(s[3]), s[4..])
  }

  function Paired(hi: int, lo: int): int {
    0x10000 + (hi - 0xD800) * 0x400 + (lo - 0xDC00)
  }

  /** The code point of a \u escape, behind the `u`. */
  function CodePoint(s: bytes): (r: Res<int>)
    ensures r.Got? ==> IsScalar(r.v) && |r.rest| < |s|
  {
    match Quad(s)
    case Fail => Fail
    case Got(hi, rest) =>
      if IsLow(hi) then Fail
      else if !IsHigh(hi) then Got(hi, rest)
      else if |rest| < 2 || rest[0] != BACKSLASH || rest[1] != LOWER_U then Fail
      else
        match Quad(rest[2..])
        case Fail => Fail
        case Got(lo, rest') => if IsLow(lo) then Got(Paired(hi, lo), rest') else Fail
  }

  /** One-character escapes. */
  function Simple(b: byte): bytes {
    if b == QUOTE || b == BACKSLASH || b == SLASH then [b]
    else if b == LOWER_B then [0x08]
    else if b == LOWER_F then [0x0C]
    else if b == LOWER_N then [NEWLINE]
    else if b == LOWER_R then [RETURN]
    else if b == LOWER_T then [TAB]
    else []
  }

  /** What one plain byte or one escape contributes to a string. */
  function Piece(s: bytes): (r: Res<bytes>)
    requires s != []
    ensures r.Got? ==> |r.rest| < |s|
  {
    if s[0] != BACKSLASH then (if s[0] < 0x20 then Fail else Got([s[0]], s[1..]))
    else if |s| == 1 then Fail
    else if s[1] == LOWER_U then
      match CodePoint(s[2..])
      case Fail => Fail
      case Got(cp, rest) => Got(Utf8(cp), rest)
    else if Simple(s[1]) == [] then Fail
    else Got(Simple(s[1]), s[2..])
  }

  /** The rest of a string, behind the opening quote; `out` is what has been read of it. */
  function StringFrom(s: bytes, out: bytes): (r: Res<bytes>)
    ensures r.Got? ==> |r.rest| < |s|
    decreases |s|
  {
    if s == [] then Fail
    else if s[0] == QUOTE then Got(out, s[1..])
    else
      match Piece(s)
      case Fail => Fail
      case Got(p, rest) => StringFrom(rest, out + p)
  }

  // Numbers: where the parts end that start at position i, or -1

  function DigitEnd(s: bytes, i: nat): (j: nat)
    requires i <= |s|
    ensures i <= j <= |s| && (forall k | i <= k < j :: IsDigit(s[k])) && (j < |s| ==> !IsDigit(s[j]))
    decreases |s| - i
  {
    if i < |s| && IsDigit(s[i]) then DigitEnd(s, i + 1) else i
  }

  function SignEnd(s: bytes, i: nat): (j: nat)
    requires i <= |s|
    ensures i <= j <= |s|
  {
    if i < |s| && s[i] == MINUS then i + 1 else i
  }

  /** 0 | [1-9][0-9]* */
  function IntEnd(s: bytes, i: nat): (j: int)
    requires i <= |s|
    ensures j == -1 || i < j <= |s|
  {
    var j := DigitEnd(s, i);
    if j == i || (j > i + 1 && s[i] == ZERO) then -1 else j
  }

  function FracEnd(s: bytes, i: nat): (j: int)
    requires i <= |s|
    ensures j == -1 || i <= j <= |s|
  {
    if i == |s| || s[i] != DOT then i
    else
      var j := DigitEnd(s, i + 1);
      if j == i + 1 then -1 else j
  }

  function ExpEnd(s: bytes, i: nat): (j: int)
    requires i <= |s|
    ensures j == -1 || i <= j <= |s|
  {
    if i == |s| || (s[i] != LOWER_E && s[i] != UPPER_E) then i
    else
      var k := if i + 1 < |s| && (s[i + 1] == PLUS || s[i + 1] == MINUS) then i + 2 else i + 1;
      var j := DigitEnd(s, k);
      if j == k then -1 else j
  }

  /** scan_number */
  function NumberEnd(s: bytes, i: nat): (j: int)
    requires i <= |s|
    ensures j == -1 || i < j <= |s|
  {
    AfterInt(s, IntEnd(s, SignEnd(s, i)))
  }

  function AfterInt(s: bytes, i: int): (j: int)
    requires i <= |s|
    ensures j == -1 || 0 <= i <= j <= |s|
  {
    if i < 0 then -1 else AfterFrac(s, FracEnd(s, i))
  }

  function AfterFrac(s: bytes, i: int): (j: int)
    requires i <= |s|
    ensures j == -1 || 0 <= i <= j <= |s|
  {
    if i < 0 then -1 else ExpEnd(s, i)
  }

  function DigitsValue(s: bytes): int
    requires forall i | 0 <= i < |s| :: IsDigit(s[i])
  {
    if s == [] then 0 else DigitsValue(s[..|s| - 1]) * 10 + (s[|s| - 1] - ZERO)
  }

  function Pow10(n: nat): nat {
    if n == 0 then 1 else 10 * Pow10(n - 1)
  }

  /** The digits from i on, as a number. */
  function RunValue(s: bytes, i: nat): int
    requires i <= |s|
  {
    DigitsValue(s[i..DigitEnd(s, i)])
  }

  /** The exponent of a number, written at position i. */
  function Exponent(t: bytes, i: nat): int
    requires i <= |t|
  {
    if i == |t| then 0
    else if i + 1 < |t| && t[i + 1] == MINUS then -RunValue(t, i + 2)
    else if i + 1 < |t| && t[i + 1] == PLUS then RunValue(t, i + 2)
    else RunValue(t, i + 1)
  }

  /** Where the digits of the fraction start, behind an integer part that ends at i. */
  function FracStart(t: bytes, i: nat): (j: nat)
    requires i <= |t|
    ensures i <= j <= |t|
  {
    if i < |t| && t[i] == DOT then i + 1 else i
  }

  lemma {:induction false} BothDigits(t: bytes, g: nat, d: nat, k: nat, f: nat)
    requires g <= d <= |t| && k <= f <= |t|
    requires (forall i | g <= i < d :: IsDigit(t[i])) && forall i | k <= i < f :: IsDigit(t[i])
    ensures var r := t[g..d] + t[k..f]; forall i | 0 <= i < |r| :: IsDigit(r[i])
  {
    var r := t[g..d] + t[k..f];
    forall i | 0 <= i < |r| ensures IsDigit(r[i]) {
      assert r[i] == if i < d - g then t[g + i] else t[k + (i - (d - g))];
    }
  }

  /** A number as its digits and the power of ten they are to be multiplied with. */
  datatype Decimal = Decimal(digits: bytes, scale: int)

  function ToDecimal(t: bytes): (r: Decimal)
    ensures forall i | 0 <= i < |r.digits| :: IsDigit(r.digits[i])
  {
    var g := SignEnd(t, 0);
    var d := DigitEnd(t, g);
    var k := FracStart(t, d);
    var f := DigitEnd(t, k);
    BothDigits(t, g, d, k, f);
    Decimal(t[g..d] + t[k..f], Exponent(t, f) - (f - k))
  }

  /** strtod does not overflow: the text of a number stands for less than 2^1024 - 2^970, which is half
      way between the largest double and the power of two behind it. */
  predicate Finite(t: bytes) {
    var m, e := DigitsValue(ToDecimal(t).digits), ToDecimal(t).scale;
    if e >= 0 then m * Pow10(e) < DBL_OVERFLOW else m < DBL_OVERFLOW * Pow10(-e)
  }

  function Number(s: bytes): (r: Res<Json>)
    ensures r.Got? ==> |r.rest| < |s|
  {
    var n, g := NumberEnd(s, 0), SignEnd(s, 0);
    if n < 0 then Fail
    else
      var d := DigitEnd(s, g);
      if d < n then (if Finite(s[..n]) then Got(JReal(s[..n]), s[n..]) else Fail)
      else if d - g > 19 then Fail
      else
        var value := if g == 1 then -DigitsValue(s[g..d]) else DigitsValue(s[g..d]);
        if LLONG_MIN <= value <= LLONG_MAX then Got(JInt(value), s[n..]) else Fail
  }

  // Values

  function Value(s: bytes, depth: nat): (r: Res<Json>)
    ensures r.Got? ==> |r.rest| < |s|
    decreases |s|, 2
  {
    var t := SkipSpaces(s);
    if t == [] then Fail else ValueAt(t, depth)
  }

  /** The value whose first character is t[0]. */
  function ValueAt(t: bytes, depth: nat): (r: Res<Json>)
    requires t != []
    ensures r.Got? ==> |r.rest| < |t|
    decreases |t|, 1
  {
    if t[0] == LOWER_N then Literal(t, NULL_TEXT, JNull)
    else if t[0] == LOWER_T || t[0] == LOWER_F then
      if StartsWith(t, TRUE_TEXT) then Literal(t, TRUE_TEXT, JBool(true)) else Literal(t, FALSE_TEXT, JBool(false))
    else if t[0] == MINUS || IsDigit(t[0]) then Number(t)
    else if t[0] == QUOTE then
      match StringFrom(t[1..], [])
      case Fail => Fail
      case Got(x, rest) => Got(JStr(x), rest)
    else if t[0] == OPEN_BRACKET then
      var u := SkipSpaces(t[1..]);
      if depth + 1 > K_MAX_DEPTH || u == [] then Fail
      else if u[0] == CLOSE_BRACKET then Got(JArr([]), u[1..])
      else Elements(u, depth + 1, [])
    else if t[0] == OPEN_BRACE then
      var u := SkipSpaces(t[1..]);
      if depth + 1 > K_MAX_DEPTH || u == [] then Fail
      else if u[0] == CLOSE_BRACE then Got(JObj([]), u[1..])
      else Members(u, depth + 1, [])
    else Fail
  }

  /** The elements of an array that are left; `acc` are those before them. */
  function Elements(s: bytes, depth: nat, acc: seq<Json>): (r: Res<Json>)
    ensures r.Got? ==> |r.rest| < |s|
    decreases |s|, 3
  {
    match Value(s, depth)
    case Fail => Fail
    case Got(v, rest) =>
      var t := SkipSpaces(rest);
      if t == [] then Fail
      else if t[0] == CLOSE_BRACKET then Got(JArr(acc + [v]), t[1..])
      else if t[0] != COMMA then Fail
      else
        var u := SkipSpaces(t[1..]);
        if u == [] then Fail else Elements(u, depth, acc + [v])
  }

  function Members(s: bytes, depth: nat, acc: seq<Member>): (r: Res<Json>)
    requires s != []
    ensures r.Got? ==> |r.rest| < |s|
    decreases |s|, 3
  {
    if s[0] != QUOTE then Fail
    else
      match StringFrom(s[1..], [])
      case Fail => Fail
      case Got(key, rest) =>
        var t := SkipSpaces(rest);
        if t == [] || t[0] != COLON then Fail
        else
          match Value(t[1..], depth)
          case Fail => Fail
          case Got(v, rest') =>
            var acc', w := Put(acc, key, v), SkipSpaces(rest');
            if w == [] then Fail
            else if w[0] == CLOSE_BRACE then Got(JObj(acc'), w[1..])
            else if w[0] != COMMA then Fail
            else
              var u := SkipSpaces(w[1..]);
              if u == [] then Fail else Members(u, depth, acc')
  }

  /** The value of a whole document, if it is accepted. */
  function Document(s: bytes): Option<Json> {
    match Value(s, 0)
    case Fail => None
    case Got(v, rest) => if SkipSpaces(rest) == [] then Some(v) else None
  }
}
