/** Printing and parsing JSON are inverse. */
module JsonRound {
  import opened Bytes
  import opened JsonText

  /** Brackets around a text, and what follows. */
  lemma {:induction false} Wrapped(open: byte, x: bytes, close: byte, rest: bytes)
    ensures ([open] + x + [close]) + rest == [open] + (x + [close] + rest)
  {
  }

  // ---------------------------------------------------------------- strings

  lemma {:induction false} SixBytes(a: byte, b: byte, c: byte, d: byte, e: byte, f: byte, tail: bytes)
    ensures var s := [a, b, c, d, e, f] + tail;
            && |s| >= 6 && s[0] == a && s[1] == b && |s[2..]| >= 4 && s[2..][4..] == tail
            && s[2..][0] == c && s[2..][1] == d && s[2..][2] == e && s[2..][3] == f
  {
  }

  lemma {:induction false} PieceEscaped(b: byte, tail: bytes)
    ensures Piece(Escaped(b) + tail) == Got([b], tail) && (Escaped(b) + tail)[0] != QUOTE
  {
    var s := Escaped(b) + tail;
    if b < 0x20 && |Escaped(b)| == 6 {
      SixBytes(BACKSLASH, LOWER_U, ZERO, ZERO, HexDigit(b / 16), HexDigit(b % 16), tail);
      assert Nibble(HexDigit(b / 16)) == b / 16 && Nibble(HexDigit(b % 16)) == b % 16;
    } else {
      assert s[|Escaped(b)|..] == tail;
    }
  }

  lemma {:induction false} Front(a: bytes, b: bytes, c: bytes, d: bytes)
    ensures a + b + c + d == a + (b + c + d)
  {
  }

  lemma {:induction false} Append(out: bytes, s: bytes)
    requires s != []
    ensures out + [s[0]] + s[1..] == out + s
  {
  }

  /** The parser undoes the escapes of every byte string. */
  lemma {:induction false} StringRound(s: bytes, rest: bytes, out: bytes)
    ensures StringFrom(EscapedBody(s) + [QUOTE] + rest, out) == Got(out + s, rest)
    decreases |s|
  {
    var text := EscapedBody(s) + [QUOTE] + rest;
    if s == [] {
      assert text[1..] == rest && out + s == out;
    } else {
      var tail := EscapedBody(s[1..]) + [QUOTE] + rest;
      Front(Escaped(s[0]), EscapedBody(s[1..]), [QUOTE], rest);
      PieceEscaped(s[0], tail);
      StringRound(s[1..], rest, out + [s[0]]);
      Append(out, s);
    }
  }

  // ---------------------------------------------------------------- integers

  lemma {:induction false} TwentyDigits(k: nat)
    requires k >= 19
    ensures Pow10(k) > LLONG_MAX + 1
  {
    PowGrows(19, k);
    assert Pow10(5) == 100_000 && Pow10(10) == 100_000 * Pow10(5);
    assert Pow10(15) == 100_000 * Pow10(10) && Pow10(19) == 10_000 * Pow10(15);
  }

  /** A run of digits without a leading zero is worth at least its length. */
  lemma {:induction false} ValueBound(s: bytes)
    requires s != [] && (forall i | 0 <= i < |s| :: IsDigit(s[i])) && s[0] != ZERO
    ensures DigitsValue(s) >= Pow10(|s| - 1)
    decreases |s|
  {
    if |s| > 1 { ValueBound(s[..|s| - 1]); }
  }

  /** The 19-digit cutoff rejects nothing that fits: a number without fraction and exponent is
      accepted if and only if its value is in range. */
  lemma {:induction false} IntegerExact(s: bytes)
    requires NumberEnd(s, 0) > 0 && NumberEnd(s, 0) == DigitEnd(s, SignEnd(s, 0))
    ensures var digits := s[SignEnd(s, 0)..NumberEnd(s, 0)];
            var value := if SignEnd(s, 0) == 1 then -DigitsValue(digits) else DigitsValue(digits);
            Number(s) == if LLONG_MIN <= value <= LLONG_MAX then Got(JInt(value), s[NumberEnd(s, 0)..]) else Fail
  {
    var digits := s[SignEnd(s, 0)..NumberEnd(s, 0)];
    if |digits| > 19 {
      assert forall i | 0 <= i < |digits| :: digits[i] == s[SignEnd(s, 0) + i];
      assert digits[0] == s[SignEnd(s, 0)] != ZERO;
      ValueBound(digits);
      TwentyDigits(|digits| - 1);
    }
  }

  lemma {:induction false} DigitsRound(n: nat)
    ensures forall i | 0 <= i < |Digits(n)| :: IsDigit(Digits(n)[i])
    ensures DigitsValue(Digits(n)) == n && (n > 0 ==> Digits(n)[0] != ZERO) && (n == 0 ==> |Digits(n)| == 1)
    decreases n
  {
    if n >= 10 {
      DigitsRound(n / 10);
      assert Digits(n)[..|Digits(n)| - 1] == Digits(n / 10);
    }
  }

  predicate NoNumberByte(rest: bytes) {
    rest == [] || (!IsDigit(rest[0]) && rest[0] != DOT && rest[0] != LOWER_E && rest[0] != UPPER_E)
  }

  lemma {:induction false} RunOf(s: bytes, i: nat, j: nat)
    requires i <= j <= |s| && (forall k | i <= k < j :: IsDigit(s[k])) && (j == |s| || !IsDigit(s[j]))
    ensures DigitEnd(s, i) == j
    decreases j - i
  {
    if i < j { RunOf(s, i + 1, j); }
  }

  lemma {:induction false} IntScan(g: bytes, ds: bytes, rest: bytes)
    requires (g == [] || g == [MINUS]) && ds != [] && (forall i | 0 <= i < |ds| :: IsDigit(ds[i]))
             && (|ds| > 1 ==> ds[0] != ZERO)
    requires NoNumberByte(rest)
    ensures var s, n := g + ds + rest, |g| + |ds|;
            SignEnd(s, 0) == |g| && NumberEnd(s, 0) == n == DigitEnd(s, |g|) && s[|g|..n] == ds && s[n..] == rest
  {
    var s, n := g + ds + rest, |g| + |ds|;
    assert s[|g|..n] == ds && s[n..] == rest;
    assert forall k | |g| <= k < n :: s[k] == ds[k - |g|];
    RunOf(s, |g|, n);
    assert IntEnd(s, |g|) == n && FracEnd(s, n) == n && ExpEnd(s, n) == n;
  }

  lemma {:induction false} IntRound(i: int, rest: bytes)
    requires LLONG_MIN <= i <= LLONG_MAX && NoNumberByte(rest)
    ensures Number(IntText(i) + rest) == Got(JInt(i), rest)
  {
    var n := if i < 0 then -i else i;
    var g: bytes := if i < 0 then [MINUS] else [];
    DigitsRound(n);
    assert IntText(i) == g + Digits(n);
    IntScan(g, Digits(n), rest);
    IntegerExact(IntText(i) + rest);
  }

  // ---------------------------------------------------------------- doubles

  lemma {:induction false} PowAdd(a: nat, b: nat)
    ensures Pow10(a + b) == Pow10(a) * Pow10(b)
    decreases a
  {
    if a > 0 { PowAdd(a - 1, b); }
  }

  lemma {:induction false} PowGrows(a: nat, b: nat)
    requires a <= b
    ensures 1 <= Pow10(a) <= Pow10(b)
    decreases b
  {
    if a < b { PowGrows(a, b - 1); } else if a > 0 { PowGrows(a - 1, a - 1); }
  }

  lemma {:induction false} DigitsBelow(s: bytes)
    requires forall i | 0 <= i < |s| :: IsDigit(s[i])
    ensures 0 <= DigitsValue(s) < Pow10(|s|)
    decreases |s|
  {
    if s != [] { DigitsBelow(s[..|s| - 1]); }
  }

  const TEN_77 := 100000000000000000000000000000000000000000000000000000000000000000000000000000

  lemma {:induction false} PowStep(a: nat, x: int, b: nat, y: int)
    requires Pow10(a) == x && Pow10(b) == y
    ensures Pow10(a + b) == x * y
  {
    PowAdd(a, b);
  }

  lemma {:induction false} Pow77()
    ensures Pow10(77) == TEN_77
  {
    assert Pow10(1) == 10 && Pow10(2) == 100;
    PowStep(2, 100, 2, 100);
    PowStep(4, 10_000, 4, 10_000);
    PowStep(8, 100_000_000, 8, 100_000_000);
    PowStep(16, Pow10(16), 16, Pow10(16));
    PowStep(32, Pow10(32), 32, Pow10(32));
    PowStep(64, Pow10(64), 8, Pow10(8));
    PowStep(72, Pow10(72), 4, Pow10(4));
    PowStep(76, Pow10(76), 1, 10);
  }

  /** The range of doubles ends between these powers of ten. */
  lemma {:induction false} OverflowDecade()
    ensures Pow10(308) <= DBL_OVERFLOW < Pow10(309)
  {
    Pow77();
    PowStep(77, TEN_77, 77, TEN_77);
    PowStep(154, TEN_77 * TEN_77, 154, TEN_77 * TEN_77);
    PowStep(308, TEN_77 * TEN_77 * (TEN_77 * TEN_77), 1, 10);
  }

  lemma {:induction false} Large(m: int, e: nat)
    requires m > 0 && e >= 309
    ensures m * Pow10(e) >= DBL_OVERFLOW
  {
    OverflowDecade();
    PowGrows(309, e);
    Times(1, m, Pow10(e));
  }

  lemma {:induction false} Small(m: int, n: nat, e: nat)
    requires m < Pow10(n) && n + e <= 308
    ensures m * Pow10(e) < DBL_OVERFLOW
  {
    OverflowDecade();
    PowAdd(n, e);
    PowGrows(n + e, 308);
    PowGrows(0, e);
    TimesLess(m, Pow10(n), Pow10(e));
  }

  lemma {:induction false} SmallFraction(m: int, n: nat, e: nat)
    requires m < Pow10(n) && n - e <= 308
    ensures m < DBL_OVERFLOW * Pow10(e)
  {
    OverflowDecade();
    PowGrows(0, e);
    PowGrows(0, 308);
    if n <= e {
      PowGrows(n, e);
      Times(1, DBL_OVERFLOW, Pow10(e));
    } else {
      PowAdd(n - e, e);
      PowGrows(n - e, 308);
      Times(Pow10(n - e), DBL_OVERFLOW, Pow10(e));
    }
  }

  /** So a number is accepted or rejected by its decade alone, unless its first digit is in the last. */
  lemma {:induction false} FiniteByDecade(t: bytes)
    ensures DigitsValue(ToDecimal(t).digits) > 0 && ToDecimal(t).scale >= 309 ==> !Finite(t)
    ensures |ToDecimal(t).digits| + ToDecimal(t).scale <= 308 ==> Finite(t)
  {
    var d := ToDecimal(t);
    var m, e, n := DigitsValue(d.digits), d.scale, |d.digits|;
    DigitsBelow(d.digits);
    if m > 0 && e >= 309 {
      Large(m, e);
    } else if n + e <= 308 && e >= 0 {
      Small(m, n, e);
    } else if n + e <= 308 {
      SmallFraction(m, n, -e);
    }
  }

  lemma {:induction false} Times(a: int, b: int, c: int)
    requires a <= b && 0 <= c
    ensures a * c <= b * c
  {
  }

  lemma {:induction false} TimesLess(a: int, b: int, c: int)
    requires a < b && 0 < c
    ensures a * c < b * c
  {
  }

  // ---------------------------------------------------------------- values

  /** The first byte of a printed value tells what it is; it is never a space. */
  predicate StartByte(v: Json, b: byte) {
    match v
    case JNull => b == LOWER_N
    case JBool(x) => b == if x then LOWER_T else LOWER_F
    case JInt(_) => b == MINUS || IsDigit(b)
    case JReal(_) => false
    case JStr(_) => b == QUOTE
    case JArr(_) => b == OPEN_BRACKET
    case JObj(_) => b == OPEN_BRACE
  }

  lemma {:induction false} PrintStarts(v: Json)
    requires DoubleFree(v)
    ensures Print(v) != [] && StartByte(v, Print(v)[0])
  {
    if v.JInt? { DigitsRound(if v.i < 0 then -v.i else v.i); }
  }

  lemma {:induction false} StringValue(s: bytes, rest: bytes, depth: nat)
    ensures Value(StringToken(s) + rest, depth) == Got(JStr(s), rest)
  {
    var t := StringToken(s) + rest;
    Wrapped(QUOTE, EscapedBody(s), QUOTE, rest);
    Cons(QUOTE, EscapedBody(s) + [QUOTE] + rest);
    NoSpaces(t);
    StringRound(s, rest, []);
    assert [] + s == s;
  }

  lemma {:induction false} Ahead(text: bytes, rest: bytes)
    ensures (text + rest)[..|text|] == text && (text + rest)[|text|..] == rest
  {
  }

  lemma {:induction false} ScalarRound(v: Json, depth: nat, rest: bytes)
    requires v.JNull? || v.JBool? || v.JStr?
    ensures Value(Print(v) + rest, depth) == Got(v, rest)
  {
    if v.JStr? {
      StringValue(v.s, rest, depth);
    } else {
      var s := Print(v) + rest;
      PrintStarts(v);
      NoSpaces(s);
      Ahead(Print(v), rest);
      if v == JBool(false) { assert !StartsWith(s, TRUE_TEXT) by { assert s[..4][0] == LOWER_F; } }
    }
  }

  lemma {:induction false} ValueRound(v: Json, depth: nat, rest: bytes)
    requires Wf(v) && DoubleFree(v) && NoNumberByte(rest) && depth <= K_MAX_DEPTH
    ensures Value(Print(v) + rest, depth) == if depth + Height(v) <= K_MAX_DEPTH then Got(v, rest) else Fail
    decreases v, 1
  {
    if v.JInt? {
      PrintStarts(v);
      NoSpaces(Print(v) + rest);
      IntRound(v.i, rest);
    } else if v.JArr? {
      ArrayRound(v, depth, rest);
    } else if v.JObj? {
      ObjectRound(v, depth, rest);
    } else {
      ScalarRound(v, depth, rest);
    }
  }

  lemma {:induction false} BracketStep(s: bytes, depth: nat)
    requires |s| > 1 && s[0] == OPEN_BRACKET && !IsSpace(s[1])
    ensures Value(s, depth) == if depth + 1 > K_MAX_DEPTH then Fail else if s[1] == CLOSE_BRACKET
            then Got(JArr([]), s[1..][1..]) else Elements(s[1..], depth + 1, [])
  {
    NoSpaces(s);
    NoSpaces(s[1..]);
  }

  lemma {:induction false} ArrayText(items: seq<Json>, rest: bytes)
    requires forall i | 0 <= i < |items| :: DoubleFree(items[i])
    ensures var s, t := Print(JArr(items)) + rest, PrintItems(items) + [CLOSE_BRACKET] + rest;
            && |s| > 1 && s[0] == OPEN_BRACKET && s[1..] == t && !IsSpace(t[0])
            && (items == [] ==> t[0] == CLOSE_BRACKET && t[1..] == rest) && (items != [] ==> t[0] != CLOSE_BRACKET)
  {
    var t := PrintItems(items) + [CLOSE_BRACKET] + rest;
    Wrapped(OPEN_BRACKET, PrintItems(items), CLOSE_BRACKET, rest);
    Cons(OPEN_BRACKET, t);
    if items == [] {
      assert t == [CLOSE_BRACKET] + rest;
    } else {
      PrintStarts(items[0]);
      assert Print(items[0]) <= PrintItems(items) <= t;
    }
  }

  lemma {:induction false} ArrayRound(v: Json, depth: nat, rest: bytes)
    requires v.JArr? && Wf(v) && DoubleFree(v) && depth <= K_MAX_DEPTH
    ensures Value(Print(v) + rest, depth) == if depth + Height(v) <= K_MAX_DEPTH then Got(v, rest) else Fail
    decreases v, 0
  {
    ArrayText(v.items, rest);
    BracketStep(Print(v) + rest, depth);
    if v.items != [] && depth < K_MAX_DEPTH {
      ElementsRound(v.items, depth + 1, [], rest);
      assert [] + v.items == v.items;
    }
  }

  /** What follows the first of some items in an array. */
  function BehindItem(items: seq<Json>, rest: bytes): bytes
    requires items != [] && forall i | 0 <= i < |items| :: DoubleFree(items[i])
  {
    if |items| == 1 then [CLOSE_BRACKET] + rest else [COMMA] + (PrintItems(items[1..]) + [CLOSE_BRACKET] + rest)
  }

  lemma {:induction false} ItemsText(items: seq<Json>, rest: bytes)
    requires items != [] && forall i | 0 <= i < |items| :: DoubleFree(items[i])
    ensures PrintItems(items) + [CLOSE_BRACKET] + rest == Print(items[0]) + BehindItem(items, rest)
    ensures BehindItem(items, rest)[1..] == if |items| == 1 then rest
            else PrintItems(items[1..]) + [CLOSE_BRACKET] + rest
    ensures |items| > 1 ==> |BehindItem(items, rest)| > 1 && !IsSpace(BehindItem(items, rest)[1])
  {
    if |items| > 1 {
      PrintStarts(items[1]);
      ListText(Print(items[0]), PrintItems(items[1..]), [CLOSE_BRACKET], rest);
    }
  }

  lemma ListText(first: bytes, more: bytes, close: bytes, rest: bytes)
    ensures first + ([COMMA] + more) + close + rest == first + ([COMMA] + (more + close + rest))
    ensures ([COMMA] + (more + close + rest))[1..] == more + close + rest
  {
  }

  lemma {:induction false} ElementsRound(items: seq<Json>, depth: nat, acc: seq<Json>, rest: bytes)
    requires items != [] && (forall i | 0 <= i < |items| :: Wf(items[i]) && DoubleFree(items[i]))
             && depth <= K_MAX_DEPTH
    ensures Elements(PrintItems(items) + [CLOSE_BRACKET] + rest, depth, acc) ==
            if depth + ItemsHeight(items) <= K_MAX_DEPTH then Got(JArr(acc + items), rest) else Fail
    decreases items
  {
    var v, after := items[0], BehindItem(items, rest);
    ItemsText(items, rest);
    ValueRound(v, depth, after);
    NoSpaces(after);
    if |items| > 1 {
      NoSpaces(after[1..]);
      ElementsRound(items[1..], depth, acc + [v], rest);
    }
    Regroup(acc, items);
  }

  lemma {:induction false} MembersStart(members: seq<Member>, rest: bytes)
    requires members != [] && forall i | 0 <= i < |members| :: DoubleFree(members[i].value)
    ensures var s := PrintMembers(members) + [CLOSE_BRACE] + rest; s[0] == QUOTE && SkipSpaces(s) == s
  {
    assert PrintMember(members[0])[0] == QUOTE;
    assert PrintMember(members[0]) <= PrintMembers(members);
  }

  lemma {:induction false} BraceStep(s: bytes, depth: nat)
    requires |s| > 1 && s[0] == OPEN_BRACE && !IsSpace(s[1])
    ensures Value(s, depth) == if depth + 1 > K_MAX_DEPTH then Fail else if s[1] == CLOSE_BRACE
            then Got(JObj([]), s[1..][1..]) else Members(s[1..], depth + 1, [])
  {
    NoSpaces(s);
    NoSpaces(s[1..]);
  }

  lemma {:induction false} ObjectText(members: seq<Member>, rest: bytes)
    requires forall i | 0 <= i < |members| :: DoubleFree(members[i].value)
    ensures var s, t := Print(JObj(members)) + rest, PrintMembers(members) + [CLOSE_BRACE] + rest;
            && |s| > 1 && s[0] == OPEN_BRACE && s[1..] == t && !IsSpace(t[0])
            && (members == [] ==> t[0] == CLOSE_BRACE && t[1..] == rest) && (members != [] ==> t[0] == QUOTE)
  {
    var t := PrintMembers(members) + [CLOSE_BRACE] + rest;
    Wrapped(OPEN_BRACE, PrintMembers(members), CLOSE_BRACE, rest);
    Cons(OPEN_BRACE, t);
    if members == [] {
      assert t == [CLOSE_BRACE] + rest;
    } else {
      MembersStart(members, rest);
    }
  }

  lemma {:induction false} ObjectRound(v: Json, depth: nat, rest: bytes)
    requires v.JObj? && Wf(v) && DoubleFree(v) && depth <= K_MAX_DEPTH
    ensures Value(Print(v) + rest, depth) == if depth + Height(v) <= K_MAX_DEPTH then Got(v, rest) else Fail
    decreases v, 0
  {
    ObjectText(v.members, rest);
    BraceStep(Print(v) + rest, depth);
    if v.members != [] && depth < K_MAX_DEPTH { AllMembersRound(v.members, depth + 1, rest); }
  }

  lemma {:induction false} AllMembersRound(members: seq<Member>, depth: nat, rest: bytes)
    requires members != [] && (forall i | 0 <= i < |members| :: Wf(members[i].value) && DoubleFree(members[i].value))
    requires Sorted(members) && depth <= K_MAX_DEPTH
    ensures Members(PrintMembers(members) + [CLOSE_BRACE] + rest, depth, []) ==
            if depth + MembersHeight(members) <= K_MAX_DEPTH then Got(JObj(members), rest) else Fail
    decreases members, 1
  {
    assert [] + members == members;
    MembersRound(members, depth, [], rest);
  }

  /** One round of the parser's loop over the members of an object. */
  lemma {:induction false} MembersStep(s: bytes, depth: nat, acc: seq<Member>, key: bytes, r: bytes, v: Json, w: bytes)
    requires s != [] && s[0] == QUOTE && StringFrom(s[1..], []) == Got(key, r) && r != [] && r[0] == COLON
    requires Value(r[1..], depth) == Got(v, w) && w != [] && (w[0] == CLOSE_BRACE || w[0] == COMMA)
    ensures w[0] == CLOSE_BRACE ==> Members(s, depth, acc) == Got(JObj(Put(acc, key, v)), w[1..])
    ensures w[0] == COMMA && |w| > 1 && !IsSpace(w[1]) ==>
            Members(s, depth, acc) == Members(w[1..], depth, Put(acc, key, v))
  {
    NoSpaces(r);
    NoSpaces(w);
  }

  lemma {:induction false} MemberText(m: Member, after: bytes)
    requires DoubleFree(m.value)
    ensures var s, r := PrintMember(m) + after, [COLON] + (Print(m.value) + after);
            s != [] && s[0] == QUOTE && s[1..] == EscapedBody(m.key) + [QUOTE] + r && r[1..] == Print(m.value) + after
  {
    var k, p := EscapedBody(m.key), Print(m.value);
    KeyText(k, p, after);
    Cons(QUOTE, k + [QUOTE] + ([COLON] + (p + after)));
    Cons(COLON, p + after);
  }

  lemma {:induction false} KeyText(k: bytes, p: bytes, after: bytes)
    ensures ([QUOTE] + k + [QUOTE]) + [COLON] + p + after == [QUOTE] + (k + [QUOTE] + ([COLON] + (p + after)))
  {
  }

  /** One member, up to what follows its value. */
  lemma {:induction false} MemberRound(m: Member, depth: nat, after: bytes)
    requires Wf(m.value) && DoubleFree(m.value) && NoNumberByte(after) && depth <= K_MAX_DEPTH
    ensures var s, r := PrintMember(m) + after, [COLON] + (Print(m.value) + after);
            && s != [] && s[0] == QUOTE && StringFrom(s[1..], []) == Got(m.key, r)
            && Value(r[1..], depth) == if depth + Height(m.value) <= K_MAX_DEPTH then Got(m.value, after) else Fail
    decreases m, 0
  {
    MemberText(m, after);
    StringRound(m.key, [COLON] + (Print(m.value) + after), []);
    assert [] + m.key == m.key;
    ValueRound(m.value, depth, after);
  }

  lemma {:induction false} MembersFail(m: Member, depth: nat, acc: seq<Member>, after: bytes)
    requires Wf(m.value) && DoubleFree(m.value) && NoNumberByte(after) && depth <= K_MAX_DEPTH < depth + Height(m.value)
    ensures Members(PrintMember(m) + after, depth, acc) == Fail
    decreases m, 1
  {
    MemberRound(m, depth, after);
    NoSpaces([COLON] + (Print(m.value) + after));
  }

  /** The text behind the first member. */
  function Behind(members: seq<Member>, rest: bytes): bytes
    requires members != [] && forall i | 0 <= i < |members| :: DoubleFree(members[i].value)
  {
    if |members| == 1 then [CLOSE_BRACE] + rest else [COMMA] + (PrintMembers(members[1..]) + [CLOSE_BRACE] + rest)
  }

  lemma {:induction false} MembersText(members: seq<Member>, rest: bytes)
    requires members != [] && forall i | 0 <= i < |members| :: DoubleFree(members[i].value)
    ensures PrintMembers(members) + [CLOSE_BRACE] + rest == PrintMember(members[0]) + Behind(members, rest)
    ensures Behind(members, rest)[1..] == if |members| == 1 then rest
            else PrintMembers(members[1..]) + [CLOSE_BRACE] + rest
    ensures |members| > 1 ==> |Behind(members, rest)| > 1 && Behind(members, rest)[1] == QUOTE
  {
    if |members| > 1 {
      MembersStart(members[1..], rest);
      ListText(PrintMember(members[0]), PrintMembers(members[1..]), [CLOSE_BRACE], rest);
    }
  }

  lemma {:induction false} MembersRound(members: seq<Member>, depth: nat, acc: seq<Member>, rest: bytes)
    requires members != [] && (forall i | 0 <= i < |members| :: Wf(members[i].value) && DoubleFree(members[i].value))
    requires Sorted(acc + members) && depth <= K_MAX_DEPTH
    ensures Members(PrintMembers(members) + [CLOSE_BRACE] + rest, depth, acc) ==
            if depth + MembersHeight(members) <= K_MAX_DEPTH then Got(JObj(acc + members), rest) else Fail
    decreases members, 0
  {
    var m, after := members[0], Behind(members, rest);
    MembersText(members, rest);
    if depth + Height(m.value) > K_MAX_DEPTH {
      MembersFail(m, depth, acc, after);
    } else {
      MemberRound(m, depth, after);
      MembersStep(PrintMember(m) + after, depth, acc, m.key, [COLON] + (Print(m.value) + after), m.value, after);
      PutNext(acc, members);
      Regroup(acc, members);
      if |members| > 1 { MembersRound(members[1..], depth, acc + [m], rest); }
    }
  }

  /** The round trip: what was printed parses to the same value, exactly when it is nested at most
      512 levels deep. */
  lemma {:induction false} RoundTrip(v: Json)
    requires Wf(v) && DoubleFree(v)
    ensures Document(Print(v)) == if Height(v) <= K_MAX_DEPTH then Some(v) else None
  {
    assert Print(v) + [] == Print(v);
    ValueRound(v, 0, []);
  }
}
