/** The strings and the numbers that the parser accepts are exactly those of the grammar. */
module JsonTokens {
  import opened Bytes
  import opened Gaps
  import opened Notation
  import opened JsonText
  import opened JsonRound
  import G = JsonGrammar
  import Unicode

  // ---------------------------------------------------------------- characters and digits

  lemma {:induction false} DecimalIs(b: byte)
    ensures IsDigit(b) <==> b in Ascii("0123456789")
  {
    var s := Ascii("0123456789");
    assert forall i: int | 0 <= i < 10 :: s[i] == ZERO + i;
    if IsDigit(b) { assert s[b - ZERO] == b; }
  }

  lemma {:induction false} HexIs(b: byte, d: int)
    ensures IsDigitOf(b, d) <==> 0 <= d < 16 && Nibble(b) == d
  {
  }

  lemma {:induction false} NumeralIs(s: bytes, n: int)
    ensures (forall i | 0 <= i < |s| :: IsDigit(s[i])) && DigitsValue(s) == n <==> Numeral(s, 10, n)
    decreases |s|
  {
    if s != [] {
      var k := |s| - 1;
      HexIs(s[k], n % 10);
      NumeralIs(s[..k], n / 10);
    }
  }

  lemma {:induction false} HexFront(s: bytes, b: byte, n: int)
    requires Numeral(s + [b], 16, n)
    ensures Nibble(b) == n % 16 && Numeral(s, 16, n / 16)
  {
    NumeralStep(s, b, 16, n);
    HexIs(b, n % 16);
  }

  lemma {:induction false} HexNumber(s: bytes) returns (n: int)
    requires forall i | 0 <= i < |s| :: Nibble(s[i]) < 16
    ensures n >= 0 && Numeral(s, 16, n)
    decreases |s|
  {
    if s == [] {
      n := 0;
    } else {
      var k := |s| - 1;
      var high := HexNumber(s[..k]);
      n := high * 16 + Nibble(s[k]);
      HexIs(s[k], Nibble(s[k]));
      LastDigit(16, high, Nibble(s[k]));
    }
  }

  lemma {:induction false} Fourth(a: byte, b: byte, c: byte, d: byte)
    ensures [a, b, c, d] == [] + [a] + [b] + [c] + [d]
  {
  }

  lemma {:induction false} FourRead(a: byte, b: byte, c: byte, d: byte, n: int)
    requires Numeral([a, b, c, d], 16, n)
    ensures Nibble(a) < 16 && Nibble(b) < 16 && Nibble(c) < 16 && Nibble(d) < 16
    ensures n == ((Nibble(a) * 16 + Nibble(b)) * 16 + Nibble(c)) * 16 + Nibble(d)
  {
    Fourth(a, b, c, d);
    HexFront([] + [a] + [b] + [c], d, n);
    HexFront([] + [a] + [b], c, n / 16);
    HexFront([] + [a], b, n / 16 / 16);
    HexFront([], a, n / 16 / 16 / 16);
  }

  /** Four hexadecimal digits are read as the number they are written for. */
  lemma {:induction false} QuadIs(s: bytes, n: int)
    ensures Quad(s).Got? && Quad(s).v == n <==> |s| >= 4 && G.IsQuad(s[..4], n)
    ensures Quad(s).Got? ==> |s| >= 4 && Quad(s).rest == s[4..]
  {
    if |s| >= 4 {
      assert s[..4] == [s[0], s[1], s[2], s[3]];
      if Quad(s).Got? {
        var m := HexNumber(s[..4]);
        FourRead(s[0], s[1], s[2], s[3], m);
      }
      if Numeral(s[..4], 16, n) { FourRead(s[0], s[1], s[2], s[3], n); }
    }
  }

  // ---------------------------------------------------------------- strings

  lemma {:induction false} Marks()
    ensures Ascii("\"") == [QUOTE] && Ascii("\\") == [BACKSLASH] && Ascii("\\u") == [BACKSLASH, LOWER_U]
  {
  }

  lemma {:induction false} PlainIs(b: byte)
    ensures G.LetterOk(G.Plain(b)) <==> b >= 0x20 && b != QUOTE && b != BACKSLASH
  {
    var s := Ascii("\"\\");
    assert s[0] == QUOTE && s[1] == BACKSLASH;
  }

  lemma {:induction false} ShortIs(b: byte)
    ensures G.LetterOk(G.Short(b)) <==> Simple(b) != []
    ensures G.LetterOk(G.Short(b)) ==> Simple(b) == G.LetterBytes(G.Short(b)) && b != LOWER_U
  {
    var s := Ascii("\"\\/bfnrt");
    assert s[0] == QUOTE && s[1] == BACKSLASH && s[2] == SLASH && s[3] == LOWER_B;
    assert s[4] == LOWER_F && s[5] == LOWER_N && s[6] == LOWER_R && s[7] == LOWER_T;
  }

  lemma {:induction false} QuadAhead(quad: bytes, n: int, tail: bytes)
    requires G.IsQuad(quad, n)
    ensures Quad(quad + tail) == Got(n, tail)
  {
    var s := quad + tail;
    assert s[..4] == quad && s[4..] == tail;
    QuadIs(s, n);
  }

  lemma {:induction false} EscapeRead(c: G.Letter, tail: bytes)
    requires c.Escape? && G.LetterOk(c)
    ensures CodePoint(c.quad + tail) == Got(c.n, tail)
  {
    QuadAhead(c.quad, c.n, tail);
  }

  lemma {:induction false} PairRead(c: G.Letter, tail: bytes)
    requires c.Pair? && G.LetterOk(c)
    ensures CodePoint(c.high + ([BACKSLASH, LOWER_U] + (c.low + tail))) == Got(Paired(c.h, c.l), tail)
  {
    var rest := [BACKSLASH, LOWER_U] + (c.low + tail);
    QuadAhead(c.high, c.h, rest);
    assert rest[2..] == c.low + tail;
    QuadAhead(c.low, c.l, tail);
  }

  /** The next piece of a string is read, and is not its end. */
  predicate ReadsAs(s: bytes, out: bytes, tail: bytes) {
    s != [] && s[0] != QUOTE && Piece(s) == Got(out, tail)
  }

  lemma {:induction false} UnicodeRead(x: bytes, cp: int, tail: bytes)
    requires CodePoint(x) == Got(cp, tail)
    ensures IsScalar(cp) && ReadsAs([BACKSLASH, LOWER_U] + x, Utf8(cp), tail)
  {
    var s := [BACKSLASH, LOWER_U] + x;
    assert s[2..] == x;
  }

  lemma {:induction false} PairText(high: bytes, low: bytes, u: bytes, tail: bytes)
    ensures u + high + u + low + tail == u + (high + (u + (low + tail)))
  {
    Two(u + high + u, low, tail);
    Two(u + high, u, low + tail);
    Two(u, high, u + (low + tail));
  }

  lemma {:induction false} OneRead(c: G.Letter, tail: bytes)
    requires (c.Plain? || c.Short?) && G.LetterOk(c)
    ensures ReadsAs(G.LetterText(c) + tail, G.LetterBytes(c), tail)
  {
    var s := G.LetterText(c) + tail;
    if c.Plain? {
      PlainIs(c.b);
      assert s[1..] == tail;
    } else {
      Marks();
      ShortIs(c.b);
      assert s[2..] == tail;
    }
  }

  lemma {:induction false} EscapeLetterRead(c: G.Letter, tail: bytes)
    requires c.Escape? && G.LetterOk(c)
    ensures ReadsAs(G.LetterText(c) + tail, G.LetterBytes(c), tail)
  {
    Marks();
    EscapeRead(c, tail);
    UnicodeRead(c.quad + tail, c.n, tail);
    Two([BACKSLASH, LOWER_U], c.quad, tail);
  }

  lemma {:induction false} PairLetterRead(c: G.Letter, tail: bytes)
    requires c.Pair? && G.LetterOk(c)
    ensures ReadsAs(G.LetterText(c) + tail, G.LetterBytes(c), tail)
  {
    Marks();
    PairRead(c, tail);
    UnicodeRead(c.high + ([BACKSLASH, LOWER_U] + (c.low + tail)), Paired(c.h, c.l), tail);
    PairText(c.high, c.low, [BACKSLASH, LOWER_U], tail);
  }

  /** Every letter is read as the bytes that it stands for. */
  lemma {:induction false} LetterRead(c: G.Letter, tail: bytes)
    requires G.LetterOk(c)
    ensures ReadsAs(G.LetterText(c) + tail, G.LetterBytes(c), tail)
  {
    if c.Escape? {
      EscapeLetterRead(c, tail);
    } else if c.Pair? {
      PairLetterRead(c, tail);
    } else {
      OneRead(c, tail);
    }
  }

  lemma {:induction false} QuadGot(s: bytes) returns (quad: bytes, n: int)
    requires Quad(s).Got?
    ensures G.IsQuad(quad, n) && n == Quad(s).v && s == quad + Quad(s).rest
  {
    n := Quad(s).v;
    QuadIs(s, n);
    quad := s[..4];
  }

  lemma {:induction false} EscapeOf(s: bytes) returns (c: G.Letter)
    requires CodePoint(s).Got?
    ensures G.LetterOk(c) && [BACKSLASH, LOWER_U] + s == G.LetterText(c) + CodePoint(s).rest
    ensures G.LetterBytes(c) == Utf8(CodePoint(s).v)
  {
    Marks();
    var u := [BACKSLASH, LOWER_U];
    var quad, n := QuadGot(s);
    var rest := Quad(s).rest;
    if IsHigh(n) {
      assert rest == u + rest[2..];
      var quad', n' := QuadGot(rest[2..]);
      c := G.Pair(quad, n, quad', n');
      PairText(quad, quad', u, Quad(rest[2..]).rest);
    } else {
      c := G.Escape(quad, n);
      Two(u, quad, rest);
    }
  }

  /** Everything that is read as part of a string is a letter. */
  lemma {:induction false} LetterOf(s: bytes) returns (c: G.Letter)
    requires s != [] && s[0] != QUOTE && Piece(s).Got?
    ensures G.LetterOk(c) && s == G.LetterText(c) + Piece(s).rest && G.LetterBytes(c) == Piece(s).v
  {
    Marks();
    if s[0] != BACKSLASH {
      c := G.Plain(s[0]);
      PlainIs(s[0]);
      assert s == [s[0]] + s[1..];
    } else if s[1] == LOWER_U {
      c := EscapeOf(s[2..]);
      assert s == [BACKSLASH, LOWER_U] + s[2..];
    } else {
      c := G.Short(s[1]);
      ShortIs(s[1]);
      assert s == [BACKSLASH] + [s[1]] + s[2..];
    }
  }

  lemma {:induction false} LettersRead(cs: seq<G.Letter>, rest: bytes, out: bytes)
    requires G.LettersOk(cs)
    ensures StringFrom(G.LettersText(cs) + ([QUOTE] + rest), out) == Got(out + G.LettersBytes(cs), rest)
    decreases |cs|
  {
    var s := G.LettersText(cs) + ([QUOTE] + rest);
    if cs == [] {
      assert s == [QUOTE] + rest;
      Cons(QUOTE, rest);
      assert out + [] == out;
    } else {
      var tail := G.LettersText(cs[1..]) + ([QUOTE] + rest);
      Two(G.LetterText(cs[0]), G.LettersText(cs[1..]), [QUOTE] + rest);
      LetterRead(cs[0], tail);
      LettersRead(cs[1..], rest, out + G.LetterBytes(cs[0]));
      Two(out, G.LetterBytes(cs[0]), G.LettersBytes(cs[1..]));
    }
  }

  lemma {:induction false} LettersOf(s: bytes, out: bytes) returns (cs: seq<G.Letter>)
    requires StringFrom(s, out).Got?
    ensures G.LettersOk(cs) && s == G.LettersText(cs) + ([QUOTE] + StringFrom(s, out).rest)
    ensures StringFrom(s, out).v == out + G.LettersBytes(cs)
    decreases |s|
  {
    if s[0] == QUOTE {
      cs := [];
      assert s == [] + ([QUOTE] + s[1..]) && out + [] == out;
    } else {
      var p := Piece(s);
      var c := LetterOf(s);
      var more := LettersOf(p.rest, out + p.v);
      cs := [c] + more;
      assert cs[1..] == more;
      Two(G.LetterText(c), G.LettersText(more), [QUOTE] + StringFrom(s, out).rest);
      Two(out, p.v, G.LettersBytes(more));
    }
  }

  /** The character that a letter names. */
  function NamedBy(c: G.Letter): int {
    match c
    case Plain(b) => b
    case Short(_) => if G.LetterBytes(c) == [] then 0 else G.LetterBytes(c)[0]
    case Escape(_, n) => n
    case Pair(_, h, _, l) => 0x10000 + (h - 0xD800) * 0x400 + (l - 0xDC00)
  }

  function AllNamed(cs: seq<G.Letter>): seq<int> {
    if cs == [] then [] else [NamedBy(cs[0])] + AllNamed(cs[1..])
  }

  predicate AsciiPlain(cs: seq<G.Letter>) {
    forall i | 0 <= i < |cs| :: cs[i].Plain? ==> cs[i].b < 0x80
  }

  lemma {:induction false} ShortAscii(b: byte)
    requires G.LetterOk(G.Short(b))
    ensures |G.LetterBytes(G.Short(b))| == 1 && G.LetterBytes(G.Short(b))[0] < 0x80
  {
    ShortIs(b);
  }

  lemma {:induction false} LetterNamed(c: G.Letter)
    requires G.LetterOk(c) && (c.Plain? ==> c.b < 0x80)
    ensures IsScalar(NamedBy(c)) && G.LetterBytes(c) == Utf8(NamedBy(c))
  {
    match c
    case Plain(b) =>
    case Short(b) => ShortAscii(b);
    case Escape(quad, n) =>
      QuadAhead(quad, n, []);
    case Pair(high, h, low, l) =>
  }

  lemma {:induction false} LettersNamed(cs: seq<G.Letter>)
    requires G.LettersOk(cs) && AsciiPlain(cs)
    ensures Unicode.Scalars(G.LettersBytes(cs)) == AllNamed(cs)
    decreases |cs|
  {
    if cs != [] {
      LetterNamed(cs[0]);
      LettersNamed(cs[1..]);
      Unicode.ScalarsStep(NamedBy(cs[0]), G.LettersBytes(cs[1..]));
    }
  }

  /** A string written in ASCII, with escapes for everything else, is read as bytes whose bits are those of
      the characters named in it, one for each letter. */
  lemma {:induction false} EscapesRead(cs: seq<G.Letter>, rest: bytes)
    requires G.LettersOk(cs) && AsciiPlain(cs)
    ensures var r := StringFrom(G.LettersText(cs) + ([QUOTE] + rest), []);
            r.Got? && r.rest == rest && Unicode.Scalars(r.v) == AllNamed(cs)
  {
    LettersRead(cs, rest, []);
    LettersNamed(cs);
    assert [] + G.LettersBytes(cs) == G.LettersBytes(cs);
  }

  // ---------------------------------------------------------------- numbers

  lemma {:induction false} NumberMarks()
    ensures Ascii("-") == [MINUS] && Ascii("+") == [PLUS] && Ascii(".") == [DOT]
    ensures forall b: byte :: b in Ascii("eE") <==> b == LOWER_E || b == UPPER_E
  {
    var s := Ascii("eE");
    assert s[0] == LOWER_E && s[1] == UPPER_E;
  }

  lemma {:induction false} DigitsAre(s: bytes)
    ensures G.AreDigits(s) <==> s != [] && forall i | 0 <= i < |s| :: IsDigit(s[i])
  {
    forall i | 0 <= i < |s| ensures IsDigit(s[i]) <==> s[i] in Ascii("0123456789") {
      DecimalIs(s[i]);
    }
  }

  /** No digit at position n. */
  predicate NoDigit(s: bytes, n: nat) {
    n >= |s| || !IsDigit(s[n])
  }

  lemma {:induction false} RunEnds(s: bytes, i: nat, j: nat)
    requires i < j <= |s| && G.AreDigits(s[i..j]) && NoDigit(s, j)
    ensures DigitEnd(s, i) == j
  {
    DigitsAre(s[i..j]);
    forall k | i <= k < j ensures IsDigit(s[k]) { assert s[k] == s[i..j][k - i]; }
    RunOf(s, i, j);
  }

  lemma {:induction false} WholeEnds(s: bytes, i: nat, j: nat)
    requires i < j <= |s| && G.AreDigits(s[i..j]) && (j > i + 1 ==> s[i] != ZERO) && NoDigit(s, j)
    ensures IntEnd(s, i) == j == DigitEnd(s, i)
  {
    RunEnds(s, i, j);
  }

  lemma {:induction false} FracEnds(s: bytes, i: nat, j: nat, frac: Option<bytes>)
    requires i <= j <= |s| && s[i..j] == G.FracText(frac) && (frac.Some? ==> G.AreDigits(frac.v)) && NoDigit(s, j)
    requires frac.None? && i < |s| ==> s[i] != DOT
    ensures FracEnd(s, i) == j
  {
    if frac.Some? {
      NumberMarks();
      assert s[i] == s[i..j][0] && s[i + 1..j] == s[i..j][1..] == frac.v;
      RunEnds(s, i + 1, j);
    }
  }

  lemma {:induction false} PowerEnds(s: bytes, i: nat, j: nat, power: Option<G.Power>)
    requires i <= j <= |s| && s[i..j] == G.PowerText(power) && (power.Some? ==> G.PowerOk(power.v)) && NoDigit(s, j)
    requires power.None? && i < |s| ==> s[i] != LOWER_E && s[i] != UPPER_E
    ensures ExpEnd(s, i) == j
  {
    if power.Some? {
      NumberMarks();
      var p := power.v;
      var t, k := s[i..j], 1 + |p.sign|;
      assert s[i] == t[0] == p.mark && s[i + k..j] == t[k..] == p.digits;
      DigitsAre(p.digits);
      assert s[i + k] == p.digits[0];
      assert p.sign != [] ==> s[i + 1] == t[1] == p.sign[0];
      RunEnds(s, i + k, j);
    }
  }

  lemma {:induction false} SubSlice(s: bytes, i: nat, n: nat, j: nat, k: nat)
    requires i <= j <= k <= n <= |s|
    ensures s[i..n][j - i..k - i] == s[j..k]
  {
    var t := s[i..n];
    assert forall m | 0 <= m < k - j :: t[j - i..k - i][m] == t[j - i + m] == s[j + m] == s[j..k][m];
  }

  lemma {:induction false} Cut(s: bytes, i: nat, g: nat, w: nat, x: nat, n: nat)
    requires i <= g <= w <= x <= n <= |s|
    ensures s[i..n] == s[i..g] + s[g..w] + s[w..x] + s[x..n]
  {
    assert s[i..w] == s[i..g] + s[g..w];
    assert s[i..x] == s[i..w] + s[w..x];
    assert s[i..n] == s[i..x] + s[x..n];
  }

  lemma {:induction false} Slices(s: bytes, i: nat, a: bytes, b: bytes, c: bytes, d: bytes)
    requires i + |a + b + c + d| <= |s| && s[i..i + |a + b + c + d|] == a + b + c + d
    ensures var j, k, l, n := i + |a|, i + |a + b|, i + |a + b + c|, i + |a + b + c + d|;
            s[i..j] == a && s[j..k] == b && s[k..l] == c && s[l..n] == d
  {
    var j, k, l, n := i + |a|, i + |a + b|, i + |a + b + c|, i + |a + b + c + d|;
    var t := s[i..n];
    assert t[..|a|] == a && t[|a|..|a + b|] == b && t[|a + b|..|a + b + c|] == c && t[|a + b + c|..] == d;
    SubSlice(s, i, n, i, j);
    SubSlice(s, i, n, j, k);
    SubSlice(s, i, n, k, l);
    SubSlice(s, i, n, l, n);
  }

  /** What follows the number stops each of its parts. */
  lemma {:induction false} StopsIs(s: bytes, n: nat, f: G.Figure)
    requires n <= |s|
    ensures G.Stops(f, s[n..]) <==>
            && NoDigit(s, n)
            && (f.power.None? && n < |s| ==> s[n] != LOWER_E && s[n] != UPPER_E)
            && (f.power.None? && f.frac.None? && n < |s| ==> s[n] != DOT)
  {
    if n < |s| {
      assert s[n..][0] == s[n];
      DecimalIs(s[n]);
      NumberMarks();
    }
  }

  lemma {:induction false} AtSign(s: bytes, i: nat, g: nat, minus: bool)
    requires i <= g < |s| && s[i..g] == G.SignText(minus) && IsDigit(s[g])
    ensures SignEnd(s, i) == g
  {
    NumberMarks();
    if minus { assert s[i] == s[i..g][0]; }
  }

  lemma {:induction false} AtFrac(s: bytes, i: nat, j: nat, frac: Option<bytes>)
    requires i <= j <= |s| && s[i..j] == G.FracText(frac)
    ensures frac.None? <==> i == j
    ensures i < j ==> s[i] == DOT
  {
    NumberMarks();
    if i < j { assert s[i] == s[i..j][0]; }
  }

  lemma {:induction false} AtPower(s: bytes, i: nat, j: nat, power: Option<G.Power>)
    requires i <= j <= |s| && s[i..j] == G.PowerText(power) && (power.Some? ==> G.PowerOk(power.v))
    ensures power.None? <==> i == j
    ensures i < j ==> s[i] == LOWER_E || s[i] == UPPER_E
  {
    NumberMarks();
    if i < j { assert s[i] == s[i..j][0]; }
  }

  lemma {:induction false} AtWhole(s: bytes, i: nat, j: nat)
    requires i < j <= |s| && G.AreDigits(s[i..j])
    ensures IsDigit(s[i])
  {
    DigitsAre(s[i..j]);
    assert s[i] == s[i..j][0];
  }

  /** The parts of a number at the positions where they start. */
  predicate PartsAt(s: bytes, i: nat, g: nat, w: nat, x: nat, n: nat, f: G.Figure) {
    && i <= g < w <= x <= n <= |s|
    && s[i..g] == G.SignText(f.minus) && s[g..w] == f.whole && s[w..x] == G.FracText(f.frac)
    && s[x..n] == G.PowerText(f.power)
  }

  lemma {:induction false} PartsEnd(s: bytes, i: nat, g: nat, w: nat, x: nat, n: nat, f: G.Figure)
    requires PartsAt(s, i, g, w, x, n, f) && G.FigureOk(f) && G.Stops(f, s[n..])
    ensures SignEnd(s, i) == g && DigitEnd(s, g) == w && IntEnd(s, g) == w && FracEnd(s, w) == x && ExpEnd(s, x) == n
  {
    StopsIs(s, n, f);
    AtPower(s, x, n, f.power);
    AtFrac(s, w, x, f.frac);
    AtWhole(s, g, w);
    AtSign(s, i, g, f.minus);
    SliceHead(s, g, w);
    WholeEnds(s, g, w);
    FracEnds(s, w, x, f.frac);
    PowerEnds(s, x, n, f.power);
  }

  lemma {:induction false} SliceHead(s: bytes, i: nat, j: nat)
    requires i < j <= |s|
    ensures s[i..j][0] == s[i]
  {
  }

  /** The number ends where its text ends, if nothing behind it is more of it. */
  lemma {:induction false} FigureEnds(s: bytes, i: nat, n: nat, f: G.Figure)
    requires i <= n <= |s| && G.IsFigure(f, s[i..n], s[n..])
    ensures NumberEnd(s, i) == n
    ensures var g := i + |G.SignText(f.minus)|; SignEnd(s, i) == g && DigitEnd(s, g) == g + |f.whole|
  {
    var g, w, x := PartsOf(s, i, n, f);
    PartsEnd(s, i, g, w, x, n, f);
  }

  lemma {:induction false} PartsOf(s: bytes, i: nat, n: nat, f: G.Figure) returns (g: nat, w: nat, x: nat)
    requires i <= n <= |s| && s[i..n] == G.FigureText(f) && f.whole != []
    ensures PartsAt(s, i, g, w, x, n, f) && g == i + |G.SignText(f.minus)| && w == g + |f.whole|
  {
    var a, c, d := G.SignText(f.minus), G.FracText(f.frac), G.PowerText(f.power);
    Lengths(a, f.whole, c, d);
    Slices(s, i, a, f.whole, c, d);
    g, w, x := i + |a|, i + |a + f.whole|, i + |a + f.whole + c|;
  }

  lemma {:induction false} Lengths(a: bytes, b: bytes, c: bytes, d: bytes)
    ensures |a + b| == |a| + |b| && |a + b + c| == |a + b| + |c| && |a + b + c + d| == |a + b + c| + |d|
  {
  }

  lemma {:induction false} DigitsAt(s: bytes, i: nat, j: nat)
    requires i < j <= |s| && forall k | i <= k < j :: IsDigit(s[k])
    ensures G.AreDigits(s[i..j])
  {
    DigitsAre(s[i..j]);
  }

  lemma {:induction false} FracAt(s: bytes, i: nat) returns (frac: Option<bytes>)
    requires i <= |s| && FracEnd(s, i) >= 0
    ensures s[i..FracEnd(s, i)] == G.FracText(frac) && (frac.Some? ==> G.AreDigits(frac.v))
    ensures frac.None? <==> FracEnd(s, i) == i
    ensures frac.None? && i < |s| ==> s[i] != DOT
    ensures frac.Some? ==> NoDigit(s, FracEnd(s, i))
  {
    NumberMarks();
    var j := FracEnd(s, i);
    if j == i {
      frac := None;
    } else {
      frac := Some(s[i + 1..j]);
      DigitsAt(s, i + 1, j);
      assert s[i..j] == [DOT] + s[i + 1..j];
    }
  }

  lemma {:induction false} HeadCut(s: bytes, i: nat, k: nat, j: nat)
    requires i < k <= j <= |s|
    ensures s[i..j] == [s[i]] + s[i + 1..k] + s[k..j]
  {
    assert s[i..k] == [s[i]] + s[i + 1..k];
    assert s[i..j] == s[i..k] + s[k..j];
  }

  lemma {:induction false} PowerAt(s: bytes, i: nat) returns (power: Option<G.Power>)
    requires i <= |s| && ExpEnd(s, i) >= 0
    ensures s[i..ExpEnd(s, i)] == G.PowerText(power) && (power.Some? ==> G.PowerOk(power.v))
    ensures power.None? <==> ExpEnd(s, i) == i
    ensures power.None? && i < |s| ==> s[i] != LOWER_E && s[i] != UPPER_E
    ensures power.Some? ==> NoDigit(s, ExpEnd(s, i))
  {
    NumberMarks();
    var j := ExpEnd(s, i);
    if j == i {
      power := None;
    } else {
      var k := if s[i + 1] == PLUS || s[i + 1] == MINUS then i + 2 else i + 1;
      power := Some(G.Power(s[i], s[i + 1..k], s[k..j]));
      DigitsAt(s, k, j);
      HeadCut(s, i, k, j);
    }
  }

  lemma {:induction false} SignAt(s: bytes, i: nat)
    requires i <= |s|
    ensures var g := SignEnd(s, i); s[i..g] == G.SignText(g > i)
  {
    NumberMarks();
  }

  /** Every number that is found has the parts of a number, and nothing behind it is more of it. */
  lemma {:induction false} FigureAt(s: bytes, i: nat) returns (f: G.Figure)
    requires i <= |s| && NumberEnd(s, i) >= 0
    ensures var n := NumberEnd(s, i); G.IsFigure(f, s[i..n], s[n..])
  {
    var g := SignEnd(s, i);
    var w := IntEnd(s, g);
    var x := FracEnd(s, w);
    var n := ExpEnd(s, x);
    var frac := FracAt(s, w);
    var power := PowerAt(s, x);
    DigitsAt(s, g, w);
    SignAt(s, i);
    f := G.Figure(g > i, s[g..w], frac, power);
    StopsIs(s, n, f);
    Cut(s, i, g, w, x, n);
  }

  /** The grammar of numbers: the scanner ends at n if and only if the text up to n is a number and what
      follows is not more of it, so that n is as far as possible and no digit follows a leading zero. */
  lemma {:induction false} NumberExact(s: bytes, i: nat, n: nat)
    requires i <= n <= |s|
    ensures NumberEnd(s, i) == n <==> exists f :: G.IsFigure(f, s[i..n], s[n..])
  {
    if NumberEnd(s, i) == n {
      var f := FigureAt(s, i);
      assert G.IsFigure(f, s[i..n], s[n..]);
    } else {
      forall f ensures !G.IsFigure(f, s[i..n], s[n..]) {
        if G.IsFigure(f, s[i..n], s[n..]) { FigureEnds(s, i, n, f); }
      }
    }
  }

  function Fraction(f: G.Figure): bytes {
    if f.frac.None? then [] else f.frac.v
  }

  lemma {:induction false} BothAre(a: bytes, b: bytes)
    requires G.AreDigits(a) && (b == [] || G.AreDigits(b))
    ensures forall i | 0 <= i < |a + b| :: IsDigit((a + b)[i])
  {
    DigitsAre(a);
    DigitsAre(b);
  }

  /** What the exponent is worth. */
  function Lifted(power: Option<G.Power>): int
    requires power.Some? ==> forall i | 0 <= i < |power.v.digits| :: IsDigit(power.v.digits[i])
  {
    if power.None? then 0
    else if power.v.sign == [MINUS] then -DigitsValue(power.v.digits)
    else DigitsValue(power.v.digits)
  }

  lemma {:induction false} WorthIs(f: G.Figure, m: int, e: int)
    requires G.FigureOk(f)
    ensures forall i | 0 <= i < |f.whole + Fraction(f)| :: IsDigit((f.whole + Fraction(f))[i])
    ensures f.power.Some? ==> forall i | 0 <= i < |f.power.v.digits| :: IsDigit(f.power.v.digits[i])
    ensures G.Worth(f, m, e) <==> m == DigitsValue(f.whole + Fraction(f)) && e == Lifted(f.power) - |Fraction(f)|
  {
    NumberMarks();
    BothAre(f.whole, Fraction(f));
    NumeralIs(f.whole + Fraction(f), m);
    if f.power.Some? {
      var p, k := f.power.v, e + |Fraction(f)|;
      DigitsAre(p.digits);
      NumeralIs(p.digits, if p.sign == [MINUS] then -k else k);
    }
  }

  lemma {:induction false} RunIs(t: bytes, i: nat, j: nat)
    requires i <= j <= |t| && DigitEnd(t, i) == j
    ensures RunValue(t, i) == DigitsValue(t[i..j])
  {
  }

  lemma {:induction false} ExponentIs(t: bytes, x: nat, power: Option<G.Power>)
    requires x <= |t| && t[x..] == G.PowerText(power) && (power.Some? ==> G.PowerOk(power.v))
    ensures power.Some? ==> forall i | 0 <= i < |power.v.digits| :: IsDigit(power.v.digits[i])
    ensures Exponent(t, x) == Lifted(power)
  {
    if power.Some? {
      NumberMarks();
      var p, n := power.v, |t|;
      var k := x + 1 + |p.sign|;
      DigitsAre(p.digits);
      assert t[x..][1 + |p.sign|..] == p.digits == t[k..n];
      assert t[k] == p.digits[0];
      assert p.sign != [] ==> t[x + 1] == t[x..][1] == p.sign[0];
      RunEnds(t, k, n);
      RunIs(t, k, n);
    }
  }

  lemma {:induction false} FracDigits(t: bytes, w: nat, x: nat, frac: Option<bytes>)
    requires w <= x <= |t| && t[w..x] == G.FracText(frac) && (frac.Some? ==> G.AreDigits(frac.v))
    requires NoDigit(t, x) && (frac.None? && w < |t| ==> t[w] != DOT)
    ensures var k := FracStart(t, w);
            k <= x && DigitEnd(t, k) == x && t[k..x] == if frac.None? then [] else frac.v
  {
    if frac.Some? {
      NumberMarks();
      assert t[w] == t[w..x][0] && t[w + 1..x] == t[w..x][1..] == frac.v;
      RunEnds(t, w + 1, x);
    }
  }

  lemma {:induction false} DecimalAt(t: bytes, g: nat, w: nat, x: nat, f: G.Figure)
    requires PartsAt(t, 0, g, w, x, |t|, f) && G.FigureOk(f)
    ensures f.power.Some? ==> forall i | 0 <= i < |f.power.v.digits| :: IsDigit(f.power.v.digits[i])
    ensures ToDecimal(t) == Decimal(f.whole + Fraction(f), Lifted(f.power) - |Fraction(f)|)
  {
    var n := |t|;
    assert t[n..] == [] && t[x..] == t[x..n];
    PartsEnd(t, 0, g, w, x, n, f);
    AtPower(t, x, n, f.power);
    AtFrac(t, w, x, f.frac);
    FracDigits(t, w, x, f.frac);
    ExponentIs(t, x, f.power);
  }

  lemma {:induction false} DecimalOf(f: G.Figure)
    requires G.FigureOk(f)
    ensures f.power.Some? ==> forall i | 0 <= i < |f.power.v.digits| :: IsDigit(f.power.v.digits[i])
    ensures ToDecimal(G.FigureText(f)) == Decimal(f.whole + Fraction(f), Lifted(f.power) - |Fraction(f)|)
  {
    var t := G.FigureText(f);
    assert t[0..|t|] == t;
    var g, w, x := PartsOf(t, 0, |t|, f);
    DecimalAt(t, g, w, x, f);
  }

  lemma {:induction false} RaisedTen(n: nat)
    ensures Raised(10, n) == Pow10(n)
    decreases n
  {
    if n > 0 { RaisedTen(n - 1); }
  }

  lemma {:induction false} RaisedAdd(base: int, a: nat, b: nat)
    ensures Raised(base, a + b) == Raised(base, a) * Raised(base, b)
    decreases a
  {
    if a > 0 { RaisedAdd(base, a - 1, b); }
  }

  lemma {:induction false} Twice(a: nat, x: int, b: nat, y: int)
    requires Raised(2, a) == x && Raised(2, b) == y
    ensures Raised(2, a + b) == x * y
  {
    RaisedAdd(2, a, b);
  }

  lemma {:induction false} Two194()
    ensures Raised(2, 194) == TWO_194 && Raised(2, 54) == 0x40_0000_0000_0000
  {
    assert Raised(2, 1) == 2 && Raised(2, 2) == 4;
    Twice(2, 4, 2, 4);
    Twice(4, 0x10, 2, 4);
    Twice(6, 0x40, 6, 0x40);
    Twice(12, 0x1000, 12, 0x1000);
    Twice(24, 0x100_0000, 24, 0x100_0000);
    Twice(48, 0x1_0000_0000_0000, 6, 0x40);
    Twice(48, 0x1_0000_0000_0000, 48, 0x1_0000_0000_0000);
    Twice(96, Raised(2, 96), 96, Raised(2, 96));
    Twice(192, Raised(2, 192), 2, 4);
  }

  lemma {:induction false} OverflowIs()
    ensures DBL_OVERFLOW == Raised(2, 1024) - Raised(2, 970)
  {
    Two194();
    var y := TWO_194;
    Twice(194, y, 194, y);
    Twice(388, y * y, 194, y);
    Twice(582, y * y * y, 194, y);
    Twice(776, y * y * y * y, 194, y);
    Twice(54, 0x40_0000_0000_0000, 970, y * y * y * y * y);
  }

  predicate Within(m: int, e: int, limit: int) {
    if e >= 0 then m * Pow10(e) < limit else m < limit * Pow10(-e)
  }

  lemma {:induction false} WithinFinite(t: bytes, m: int, e: int)
    requires DigitsValue(ToDecimal(t).digits) == m && ToDecimal(t).scale == e
    ensures Finite(t) <==> Within(m, e, DBL_OVERFLOW)
  {
  }

  lemma {:induction false} WithinBelow(m: int, e: int)
    ensures G.Below(m, e) <==> Within(m, e, Raised(2, 1024) - Raised(2, 970))
  {
    RaisedTen(if e >= 0 then e else -e);
  }

  lemma {:induction false} FiniteIs(f: G.Figure, m: int, e: int)
    requires G.FigureOk(f) && G.Worth(f, m, e)
    ensures Finite(G.FigureText(f)) <==> G.Below(m, e)
  {
    WorthIs(f, m, e);
    DecimalOf(f);
    WithinFinite(G.FigureText(f), m, e);
    OverflowIs();
    WithinBelow(m, e);
  }

  lemma {:induction false} FigureAhead(f: G.Figure, rest: bytes)
    requires G.FigureOk(f) && G.Stops(f, rest)
    ensures var s, n, g := G.FigureText(f) + rest, |G.FigureText(f)|, |G.SignText(f.minus)|;
            && NumberEnd(s, 0) == n && SignEnd(s, 0) == g && DigitEnd(s, g) == g + |f.whole|
            && s[..n] == G.FigureText(f) && s[n..] == rest
  {
    var s, n := G.FigureText(f) + rest, |G.FigureText(f)|;
    assert s[0..n] == s[..n] == G.FigureText(f) && s[n..] == rest;
    FigureEnds(s, 0, n, f);
  }

  lemma {:induction false} RealStep(s: bytes, n: nat)
    requires NumberEnd(s, 0) == n && DigitEnd(s, SignEnd(s, 0)) < n
    ensures Number(s) == if Finite(s[..n]) then Got(JReal(s[..n]), s[n..]) else Fail
  {
  }

  lemma {:induction false} RealRead(f: G.Figure, m: int, e: int, rest: bytes)
    requires G.FigureOk(f) && G.Stops(f, rest) && G.Worth(f, m, e) && !G.IsInteger(f)
    ensures Number(G.FigureText(f) + rest) == if G.Below(m, e) then Got(JReal(G.FigureText(f)), rest) else Fail
  {
    FigureAhead(f, rest);
    FiniteIs(f, m, e);
    RealStep(G.FigureText(f) + rest, |G.FigureText(f)|);
  }

  lemma {:induction false} IntegerText(f: G.Figure, m: int, e: int)
    requires G.FigureOk(f) && G.Worth(f, m, e) && G.IsInteger(f)
    ensures (forall i | 0 <= i < |f.whole| :: IsDigit(f.whole[i])) && m == DigitsValue(f.whole)
    ensures G.FigureText(f) == G.SignText(f.minus) + f.whole && |G.SignText(f.minus)| == if f.minus then 1 else 0
  {
    WorthIs(f, m, e);
    assert f.whole + [] == f.whole;
  }

  lemma {:induction false} IntegerAhead(f: G.Figure, m: int, e: int, rest: bytes)
    requires G.FigureOk(f) && G.Stops(f, rest) && G.Worth(f, m, e) && G.IsInteger(f)
    ensures var s, n, g := G.FigureText(f) + rest, |G.FigureText(f)|, if f.minus then 1 else 0;
            && NumberEnd(s, 0) == n == DigitEnd(s, g) && SignEnd(s, 0) == g && g <= n && s[n..] == rest
            && s[g..n] == f.whole
  {
    var s, n, g := G.FigureText(f) + rest, |G.FigureText(f)|, |G.SignText(f.minus)|;
    FigureAhead(f, rest);
    IntegerText(f, m, e);
    SubSlice(s, 0, n, g, n);
    assert s[0..n] == G.SignText(f.minus) + f.whole;
  }

  lemma {:induction false} IntegerRead(f: G.Figure, m: int, e: int, rest: bytes)
    requires G.FigureOk(f) && G.Stops(f, rest) && G.Worth(f, m, e) && G.IsInteger(f)
    ensures Number(G.FigureText(f) + rest) ==
            if G.InRange(f, m, e) then Got(JInt(G.Signed(f, m)), rest) else Fail
  {
    IntegerAhead(f, m, e, rest);
    IntegerText(f, m, e);
    FigureNonempty(f);
    IntegerExact(G.FigureText(f) + rest);
  }

  lemma {:induction false} FigureNonempty(f: G.Figure)
    requires G.FigureOk(f)
    ensures G.FigureText(f) != []
  {
  }

  /** A number is accepted if and only if it is in the range of its type. */
  lemma {:induction false} NumberRead(t: G.Tree, rest: bytes)
    requires t.TNumber? && G.FigureOk(t.f) && G.Stops(t.f, rest) && G.Worth(t.f, t.m, t.e)
    ensures Number(G.Text(t) + rest) == if G.InRange(t.f, t.m, t.e) then Got(G.Meaning(t), rest) else Fail
  {
    if G.IsInteger(t.f) {
      IntegerRead(t.f, t.m, t.e, rest);
    } else {
      RealRead(t.f, t.m, t.e, rest);
    }
  }

  lemma {:induction false} WorthOf(f: G.Figure) returns (m: int, e: int)
    requires G.FigureOk(f)
    ensures G.Worth(f, m, e)
  {
    WorthIs(f, 0, 0);
    m, e := DigitsValue(f.whole + Fraction(f)), Lifted(f.power) - |Fraction(f)|;
    WorthIs(f, m, e);
  }

  lemma {:induction false} NumberGot(s: bytes)
    requires Number(s).Got?
    ensures NumberEnd(s, 0) >= 0 && Number(s).rest == s[NumberEnd(s, 0)..]
  {
  }

  lemma {:induction false} FigureTree(f: G.Figure, m: int, e: int, rest: bytes)
    requires G.FigureOk(f) && G.Stops(f, rest) && G.Worth(f, m, e) && Number(G.FigureText(f) + rest).Got?
    ensures G.TreeOk(G.TNumber(f, m, e)) && G.Meaning(G.TNumber(f, m, e)) == Number(G.FigureText(f) + rest).v
  {
    NumberRead(G.TNumber(f, m, e), rest);
  }

  lemma {:induction false} FigureFront(s: bytes) returns (f: G.Figure, rest: bytes)
    requires NumberEnd(s, 0) >= 0
    ensures G.FigureOk(f) && G.Stops(f, rest) && s == G.FigureText(f) + rest && rest == s[NumberEnd(s, 0)..]
  {
    f := FigureAt(s, 0);
    rest := s[NumberEnd(s, 0)..];
    Halves(s, NumberEnd(s, 0));
    IsFigureParts(f, s[0..NumberEnd(s, 0)], rest);
  }

  lemma {:induction false} Halves(s: bytes, n: nat)
    requires n <= |s|
    ensures s == s[0..n] + s[n..]
  {
  }

  lemma {:induction false} IsFigureParts(f: G.Figure, text: bytes, rest: bytes)
    requires G.IsFigure(f, text, rest)
    ensures G.FigureOk(f) && G.Stops(f, rest) && text == G.FigureText(f)
  {
  }

  lemma {:induction false} NumberOf(s: bytes) returns (t: G.Tree)
    requires Number(s).Got?
    ensures t.TNumber? && G.TreeOk(t) && s == G.Text(t) + Number(s).rest && G.Meaning(t) == Number(s).v
  {
    NumberGot(s);
    var f, rest := FigureFront(s);
    var m, e := WorthOf(f);
    t := G.TNumber(f, m, e);
    FigureTree(f, m, e, rest);
  }
}
