/** References in character data are decoded exactly as the grammar says. */
module XmlTokens {
  import opened Bytes
  import opened Gaps
  import opened Notation
  import opened XmlText
  import G = XmlGrammar
  import Unicode

  // ---------------------------------------------------------------- digits

  function Base(hex: bool): int {
    if hex then 16 else 10
  }

  lemma {:induction false} DigitIs(b: byte, d: int, hex: bool)
    ensures IsDigitOf(b, d) && d < Base(hex) <==> 0 <= d && Digit(b, hex) == d
  {
  }

  lemma {:induction false} SliceEnd(s: bytes, i: nat, j: nat)
    requires i < j <= |s|
    ensures s[i..j][j - i - 1] == s[j - 1] && s[i..j][..j - i - 1] == s[i..j - 1]
  {
  }

  /** A run of digits is read as the number that it is written for. */
  lemma {:induction false} RunRead(s: bytes, i: nat, j: nat, hex: bool, n: int)
    requires i <= j <= |s| && Numeral(s[i..j], Base(hex), n)
    ensures (forall k | i <= k < j :: Digit(s[k], hex) >= 0) && RunValue(s, i, j, hex) == n
    decreases j
  {
    if i < j {
      SliceEnd(s, i, j);
      DigitIs(s[j - 1], n % Base(hex), hex);
      RunRead(s, i, j - 1, hex, n / Base(hex));
    }
  }

  lemma {:induction false} RunNumeral(s: bytes, i: nat, j: nat, hex: bool)
    requires i <= j <= |s| && forall k | i <= k < j :: Digit(s[k], hex) >= 0
    ensures Numeral(s[i..j], Base(hex), RunValue(s, i, j, hex))
    decreases j
  {
    if i < j {
      var d, high := Digit(s[j - 1], hex), RunValue(s, i, j - 1, hex);
      assert s[i..j] == s[i..j - 1] + [s[j - 1]];
      DigitIs(s[j - 1], d, hex);
      RunNumeral(s, i, j - 1, hex);
      NumeralAppend(s[i..j - 1], s[j - 1], Base(hex), high, d);
    }
  }

  lemma {:induction false} DigitRun(s: bytes, i: nat, j: nat, hex: bool)
    requires i <= j < |s| && (forall k | i <= k < j :: Digit(s[k], hex) >= 0) && Digit(s[j], hex) < 0
    ensures DigitEnd(s, i, hex) == j
    decreases j - i
  {
    if i < j { DigitRun(s, i + 1, j, hex); }
  }

  // ---------------------------------------------------------------- numeric references

  lemma {:induction false} RefMarks()
    ensures Ascii("&") == [AMP] && Ascii("&#") == [AMP, HASH] && Ascii(";") == [SEMI]
    ensures forall b: byte :: b in Ascii("xX") <==> b == 0x78 || b == 0x58
  {
    var s := Ascii("xX");
    assert s[0] == 0x78 && s[1] == 0x58;
  }

  /** A reference from its positions: digits from i to j, and a semicolon. */
  lemma {:induction false} RefAt(s: bytes, j: nat, hex: bool, n: int)
    requires |s| >= 3 && s[1] == HASH && (hex <==> s[2] == 0x78 || s[2] == 0x58)
    requires (if hex then 3 else 2) < j < |s| && s[j] == SEMI
    requires Numeral(s[if hex then 3 else 2..j], Base(hex), n) && G.IsCharacter(n)
    ensures NumericRef(s) == Some(Ref(n, j + 1))
  {
    var i := if hex then 3 else 2;
    RunRead(s, i, j, hex, n);
    DigitRun(s, i, j, hex);
  }

  lemma {:induction false} RefText(front: bytes, digits: bytes, tail: bytes)
    ensures var s, j := front + digits + [SEMI] + tail, |front + digits|;
            s[|front|..j] == digits && j < |s| && s[j] == SEMI && forall i | 0 <= i < |front| :: s[i] == front[i]
  {
  }

  lemma {:induction false} DecimalRead(u: G.Unit, tail: bytes)
    requires u.Decimal? && G.UnitOk(u)
    ensures NumericRef(G.UnitText(u) + tail) == Some(Ref(u.n, |G.UnitText(u)|))
  {
    RefMarks();
    var s, j := G.UnitText(u) + tail, 2 + |u.digits|;
    RefText([AMP, HASH], u.digits, tail);
    RunRead(s, 2, j, false, u.n);
    assert Digit(s[2], false) >= 0;
    RefAt(s, j, false, u.n);
  }

  lemma {:induction false} HexRead(u: G.Unit, tail: bytes)
    requires u.Hex? && G.UnitOk(u)
    ensures NumericRef(G.UnitText(u) + tail) == Some(Ref(u.n, |G.UnitText(u)|))
  {
    RefMarks();
    assert [AMP, HASH] + [u.mark] == [AMP, HASH, u.mark];
    RefText([AMP, HASH, u.mark], u.digits, tail);
    RefAt(G.UnitText(u) + tail, 3 + |u.digits|, true, u.n);
  }

  lemma {:induction false} RefOf(s: bytes) returns (u: G.Unit)
    requires s != [] && s[0] == AMP && NumericRef(s).Some?
    ensures (u.Decimal? || u.Hex?) && G.UnitOk(u) && G.UnitText(u) == s[..NumericRef(s).v.len]
    ensures u.n == NumericRef(s).v.cp
  {
    RefMarks();
    var hex := s[2] == 0x78 || s[2] == 0x58;
    var i := if hex then 3 else 2;
    var j, n := DigitEnd(s, i, hex), NumericRef(s).v.cp;
    RunNumeral(s, i, j, hex);
    if hex {
      u := G.Hex(s[2], s[3..j], n);
      assert s[..j + 1] == [AMP, HASH] + [s[2]] + s[3..j] + [SEMI];
    } else {
      u := G.Decimal(s[2..j], n);
      assert s[..j + 1] == [AMP, HASH] + s[2..j] + [SEMI];
    }
  }

  // ---------------------------------------------------------------- character data

  lemma {:induction false} EntityTexts()
    ensures Ascii("&") + Ascii("amp") + Ascii(";") == AMP_REF && Ascii("&") + Ascii("lt") + Ascii(";") == LT_REF
    ensures Ascii("&") + Ascii("gt") + Ascii(";") == GT_REF && Ascii("&") + Ascii("quot") + Ascii(";") == QUOT_REF
    ensures Ascii("&") + Ascii("apos") + Ascii(";") == APOS_REF
  {
  }

  /** The entities, as the reader tries them. */
  predicate IsEntityText(t: bytes, b: byte) {
    || (t == AMP_REF && b == AMP)
    || (t == LT_REF && b == LT)
    || (t == GT_REF && b == GT)
    || (t == QUOT_REF && b == QUOTE)
    || (t == APOS_REF && b == APOS)
  }

  lemma {:induction false} EntityIs(name: bytes, b: byte)
    requires G.IsEntity(name, b)
    ensures IsEntityText(G.UnitText(G.Named(name, b)), b)
  {
    EntityTexts();
  }

  lemma {:induction false} EntityOf(t: bytes, b: byte) returns (u: G.Unit)
    requires IsEntityText(t, b)
    ensures u.Named? && G.UnitOk(u) && G.UnitText(u) == t && u.b == b
  {
    EntityTexts();
    var name := if t == AMP_REF then Ascii("amp")
    else if t == LT_REF then Ascii("lt")
    else if t == GT_REF then Ascii("gt")
    else if t == QUOT_REF then Ascii("quot")
    else Ascii("apos");
    u := G.Named(name, b);
  }

  lemma {:induction false} SecondByte(s: bytes, t: bytes)
    requires |s| >= 2 && |t| >= 3
    ensures StartsWith(s, t) ==> s[1] == t[1] && s[2] == t[2]
  {
    if StartsWith(s, t) { assert s[1] == s[..|t|][1] && s[2] == s[..|t|][2]; }
  }

  /** Entities differ in their second and third byte, and none is a numeric reference. */
  lemma {:induction false} EntityFirst(s: bytes, t: bytes, b: byte)
    requires StartsWith(s, t) && IsEntityText(t, b)
    ensures FirstUnit(s) == Unit([b], |t|)
  {
    assert s[0] == s[..|t|][0] == t[0] && s[1] == s[..|t|][1] == t[1] && s[2] == s[..|t|][2] == t[2];
    SecondByte(s, AMP_REF);
    SecondByte(s, LT_REF);
    SecondByte(s, GT_REF);
    SecondByte(s, QUOT_REF);
    SecondByte(s, APOS_REF);
  }

  lemma {:induction false} NumericFirst(s: bytes)
    requires |s| > 1 && s[0] == AMP && NumericRef(s).Some?
    ensures FirstUnit(s) == Unit(Utf8(NumericRef(s).v.cp), NumericRef(s).v.len)
  {
    SecondByte(s, AMP_REF);
    SecondByte(s, LT_REF);
    SecondByte(s, GT_REF);
    SecondByte(s, QUOT_REF);
    SecondByte(s, APOS_REF);
  }

  /** A reference in front of the text is what is decoded first. */
  lemma {:induction false} ReferenceFirst(u: G.Unit, s: bytes)
    requires G.IsReference(u, s)
    ensures s != [] && FirstUnit(s) == Unit(G.UnitBytes(u), |G.UnitText(u)|)
    ensures |G.UnitText(u)| > 1 && s[0] == AMP
  {
    var t := G.UnitText(u);
    var tail := s[|t|..];
    RefMarks();
    assert s == t + tail && t[0] == AMP;
    if u.Named? {
      EntityIs(u.name, u.b);
      EntityFirst(s, t, u.b);
    } else {
      if u.Decimal? { DecimalRead(u, tail); } else { HexRead(u, tail); }
      NumericFirst(s);
    }
  }

  /** Everything that is decoded first is a unit of the grammar. */
  lemma {:induction false} FirstOf(s: bytes) returns (u: G.Unit)
    requires s != []
    ensures G.UnitOk(u) && s == G.UnitText(u) + s[FirstUnit(s).len..] && G.UnitBytes(u) == FirstUnit(s).out
    ensures u == G.Plain(AMP) ==> FirstUnit(s).len == 1
  {
    var len := FirstUnit(s).len;
    assert s == s[..len] + s[len..];
    if s[0] == AMP && len > 1 {
      if NumericRef(s).Some? {
        NumericFirst(s);
        u := RefOf(s);
      } else {
        u := EntityOf(s[..len], FirstUnit(s).out[0]);
      }
    } else {
      u := G.Plain(s[0]);
      assert s[..1] == [s[0]];
    }
  }

  lemma {:induction false} DecodeRead(us: seq<G.Unit>)
    requires G.UnitsOk(us)
    ensures Decode(G.UnitsText(us)) == G.UnitsBytes(us)
    decreases |us|
  {
    if us != [] {
      var s, u := G.UnitsText(us), us[0];
      var t := G.UnitText(u);
      assert s[|t|..] == G.UnitsText(us[1..]) && t <= s;
      DecodeRead(us[1..]);
      if u.Plain? {
        PlainFirst(us);
      } else {
        assert G.IsReference(u, s);
        ReferenceFirst(u, s);
      }
    }
  }

  lemma {:induction false} PlainFirst(us: seq<G.Unit>)
    requires G.UnitsOk(us) && us != [] && us[0].Plain?
    ensures G.UnitsText(us) != [] && FirstUnit(G.UnitsText(us)) == Unit([us[0].b], 1)
  {
    var s := G.UnitsText(us);
    RefMarks();
    if us[0] == G.Plain(AMP) && FirstUnit(s).len > 1 {
      var u := FirstOf(s);
      assert G.UnitText(u) <= s;
      assert G.IsReference(u, s);
      assert false;
    }
  }

  lemma {:induction false} DecodeOf(s: bytes) returns (us: seq<G.Unit>)
    ensures G.UnitsOk(us) && G.UnitsText(us) == s && G.UnitsBytes(us) == Decode(s)
    decreases |s|
  {
    if s == [] {
      us := [];
    } else {
      var u := FirstOf(s);
      var more := DecodeOf(s[FirstUnit(s).len..]);
      us := [u] + more;
      assert us[1..] == more;
      RefMarks();
      if u == G.Plain(AMP) {
        forall r ensures !G.IsReference(r, s) {
          if G.IsReference(r, s) { ReferenceFirst(r, s); }
        }
      }
    }
  }

  /** decode_entities is the decoding of the grammar: the text is cut into units in one way. */
  lemma {:induction false} DecodeExact(s: bytes, out: bytes)
    ensures Decode(s) == out <==> exists us :: G.UnitsOk(us) && G.UnitsText(us) == s && G.UnitsBytes(us) == out
  {
    var us := DecodeOf(s);
    forall us | G.UnitsOk(us) && G.UnitsText(us) == s ensures G.UnitsBytes(us) == Decode(s) {
      DecodeRead(us);
    }
  }

  /** The character that a unit names. */
  function NamedBy(u: G.Unit): int {
    match u
    case Plain(b) => b
    case Named(_, b) => b
    case Decimal(_, n) => n
    case Hex(_, _, n) => n
  }

  function AllNamed(us: seq<G.Unit>): seq<int> {
    if us == [] then [] else [NamedBy(us[0])] + AllNamed(us[1..])
  }

  predicate AsciiPlain(us: seq<G.Unit>) {
    forall i | 0 <= i < |us| :: us[i].Plain? ==> us[i].b < 0x80
  }

  lemma {:induction false} UnitNamed(u: G.Unit)
    requires G.UnitOk(u) && (u.Plain? ==> u.b < 0x80)
    ensures IsScalar(NamedBy(u)) && G.UnitBytes(u) == Utf8(NamedBy(u))
  {
  }

  /** Text written in ASCII, with references for everything else, is decoded to bytes whose bits are those of
      the characters named in it, one for each unit. */
  lemma {:induction false} ReferencesRead(us: seq<G.Unit>)
    requires G.UnitsOk(us) && AsciiPlain(us)
    ensures Unicode.Scalars(Decode(G.UnitsText(us))) == AllNamed(us)
    decreases |us|
  {
    DecodeRead(us);
    if us != [] {
      UnitNamed(us[0]);
      DecodeRead(us[1..]);
      ReferencesRead(us[1..]);
      Unicode.ScalarsStep(NamedBy(us[0]), G.UnitsBytes(us[1..]));
    }
  }
}
