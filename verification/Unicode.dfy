/** Well-formed UTF-8. */
module Unicode {
  import opened Bytes

  /** What may follow, as in section 4 of RFC 3629: any character, that many continuation bytes, or
      continuation bytes of which the first is restricted. */
  datatype Expect = Start | One | Two | Three | AfterE0 | AfterED | AfterF0 | AfterF4 | Bad

  function Next(u: Expect, b: byte): Expect {
    match u
    case Start =>
      if b < 0x80 then Start
      else if 0xC2 <= b <= 0xDF then One
      else if b == 0xE0 then AfterE0
      else if b == 0xED then AfterED
      else if 0xE1 <= b <= 0xEF then Two
      else if b == 0xF0 then AfterF0
      else if 0xF1 <= b <= 0xF3 then Three
      else if b == 0xF4 then AfterF4
      else Bad
    case One => if 0x80 <= b <= 0xBF then Start else Bad
    case Two => if 0x80 <= b <= 0xBF then One else Bad
    case Three => if 0x80 <= b <= 0xBF then Two else Bad
    case AfterE0 => if 0xA0 <= b <= 0xBF then One else Bad
    case AfterED => if 0x80 <= b <= 0x9F then One else Bad
    case AfterF0 => if 0x90 <= b <= 0xBF then Two else Bad
    case AfterF4 => if 0x80 <= b <= 0x8F then Two else Bad
    case Bad => Bad
  }

  function Read(u: Expect, s: bytes): Expect
    decreases |s|
  {
    if s == [] then u else Read(Next(u, s[0]), s[1..])
  }

  predicate IsUtf8(s: bytes) {
    Read(Start, s) == Start
  }

  lemma {:induction false} ReadBad(s: bytes)
    ensures Read(Bad, s) == Bad
    decreases |s|
  {
    if s != [] { ReadBad(s[1..]); }
  }

  lemma {:induction false} ReadBoth(u: Expect, a: bytes, b: bytes)
    ensures Read(u, a + b) == Read(Read(u, a), b)
    decreases |a|
  {
    if a == [] {
      assert a + b == b;
    } else {
      assert (a + b)[1..] == a[1..] + b;
      ReadBoth(Next(u, a[0]), a[1..], b);
    }
  }

  // ---------------------------------------------------------------- well-formed means encoded

  function EncodeAll(cps: seq<int>): bytes
    requires forall i | 0 <= i < |cps| :: IsScalar(cps[i])
  {
    if cps == [] then [] else Utf8(cps[0]) + EncodeAll(cps[1..])
  }

  lemma {:induction false} ReadFour(u: Expect, s: bytes)
    requires |s| <= 4
    ensures Read(u, s) == if |s| == 0 then u
                          else if |s| == 1 then Next(u, s[0])
                          else if |s| == 2 then Next(Next(u, s[0]), s[1])
                          else if |s| == 3 then Next(Next(Next(u, s[0]), s[1]), s[2])
                          else Next(Next(Next(Next(u, s[0]), s[1]), s[2]), s[3])
  {
    if |s| > 1 {
      var u1 := Next(u, s[0]);
      assert s[1..][1..] == s[2..];
      assert Read(u1, s[1..]) == Read(Next(u1, s[1]), s[2..]);
      if |s| > 2 {
        var u2 := Next(u1, s[1]);
        assert s[2..][1..] == s[3..];
        assert Read(u2, s[2..]) == Read(Next(u2, s[2]), s[3..]);
        if |s| > 3 {
          assert s[3..][1..] == [];
          assert Read(Next(u2, s[2]), s[3..]) == Next(Next(u2, s[2]), s[3]);
        }
      }
    }
  }

  lemma {:induction false} Utf8Read(cp: int)
    requires IsScalar(cp)
    ensures IsUtf8(Utf8(cp))
  {
    ReadFour(Start, Utf8(cp));
  }

  lemma {:induction false} EncodedRead(cps: seq<int>)
    requires forall i | 0 <= i < |cps| :: IsScalar(cps[i])
    ensures IsUtf8(EncodeAll(cps))
    decreases |cps|
  {
    if cps != [] {
      Utf8Read(cps[0]);
      EncodedRead(cps[1..]);
      ReadBoth(Start, Utf8(cps[0]), EncodeAll(cps[1..]));
    }
  }

  function FrontLen(s: bytes): nat
    requires s != []
  {
    if s[0] < 0x80 then 1 else if s[0] < 0xE0 then 2 else if s[0] < 0xF0 then 3 else 4
  }

  lemma {:induction false} Shift(h: int, l: int)
    requires 0 <= l < 0x40
    ensures (h * 0x40 + l) / 0x40 == h && (h * 0x40 + l) % 0x40 == l
    ensures (h * 0x40 + l) / 0x1000 == h / 0x40 && (h * 0x40 + l) / 0x40000 == h / 0x1000
  {
  }

  // ---------------------------------------------------------------- the bits of a character

  /** The low bits of a byte. */
  function Low(b: byte, limit: int): int
    requires limit > 0
  {
    b % limit
  }

  function Joined(high: int, b: byte): int {
    high * 0x40 + Low(b, 0x40)
  }

  /** The payload of one encoded character: seven, five, four or three bits of its first byte, and six
      of each other byte. */
  function Bits(s: bytes): int
    requires 1 <= |s| <= 4
  {
    if |s| == 1 then Low(s[0], 0x80)
    else if |s| == 2 then Joined(Low(s[0], 0x20), s[1])
    else if |s| == 3 then Joined(Joined(Low(s[0], 0x10), s[1]), s[2])
    else Joined(Joined(Joined(Low(s[0], 0x8), s[1]), s[2]), s[3])
  }

  /** The other bits: 0, 110, 1110 or 11110 in front, and 10 in front of each other byte. */
  predicate Marked(s: bytes) {
    && 1 <= |s| <= 4
    && (if |s| == 1 then s[0] / 0x80 == 0x0
        else if |s| == 2 then s[0] / 0x20 == 0x6
        else if |s| == 3 then s[0] / 0x10 == 0xE
        else s[0] / 0x8 == 0x1E)
    && forall i | 1 <= i < |s| :: s[i] / 0x40 == 0x2
  }

  /** How many bytes the value needs: there are 7, 11, 16 or 21 bits. */
  function Needs(cp: int): nat {
    if cp < 0x80 then 1 else if cp < 0x800 then 2 else if cp < 0x10000 then 3 else 4
  }

  predicate Encodes(s: bytes, cp: int) {
    Marked(s) && Bits(s) == cp && |s| == Needs(cp)
  }

  lemma {:induction false} Tail(cp: int)
    requires cp >= 0
    ensures var b: byte := 0x80 + cp % 0x40; Joined(cp / 0x40, b) == cp && b / 0x40 == 0x2
  {
  }

  lemma {:induction false} Halved(cp: int)
    requires cp >= 0
    ensures cp / 0x1000 == cp / 0x40 / 0x40 && cp / 0x40000 == cp / 0x40 / 0x40 / 0x40
  {
  }

  lemma {:induction false} Utf8Encodes(cp: int)
    requires IsScalar(cp)
    ensures Encodes(Utf8(cp), cp)
  {
    if cp >= 0x80 {
      Halved(cp);
      Tail(cp);
      if cp >= 0x800 {
        Tail(cp / 0x40);
        if cp >= 0x10000 { Tail(cp / 0x40 / 0x40); }
      }
    }
  }

  lemma {:induction false} JoinedOnce(h: int, b: byte, h': int, b': byte)
    requires Joined(h, b) == Joined(h', b') && b / 0x40 == 0x2 == b' / 0x40
    ensures h == h' && b == b'
  {
  }

  lemma {:induction false} FirstOnce(a: byte, a': byte, limit: int)
    requires limit > 0 && Low(a, limit) == Low(a', limit) && a / limit == a' / limit
    ensures a == a'
  {
  }

  lemma {:induction false} BitsOnce(s: bytes, t: bytes)
    requires Marked(s) && Marked(t) && |s| == |t| && Bits(s) == Bits(t)
    ensures s == t
  {
    if |s| == 1 {
      FirstOnce(s[0], t[0], 0x80);
    } else if |s| == 2 {
      JoinedOnce(Low(s[0], 0x20), s[1], Low(t[0], 0x20), t[1]);
      FirstOnce(s[0], t[0], 0x20);
    } else if |s| == 3 {
      JoinedOnce(Joined(Low(s[0], 0x10), s[1]), s[2], Joined(Low(t[0], 0x10), t[1]), t[2]);
      JoinedOnce(Low(s[0], 0x10), s[1], Low(t[0], 0x10), t[1]);
      FirstOnce(s[0], t[0], 0x10);
    } else {
      var g, h := Joined(Low(s[0], 0x8), s[1]), Joined(Low(t[0], 0x8), t[1]);
      JoinedOnce(Joined(g, s[2]), s[3], Joined(h, t[2]), t[3]);
      JoinedOnce(g, s[2], h, t[2]);
      JoinedOnce(Low(s[0], 0x8), s[1], Low(t[0], 0x8), t[1]);
      FirstOnce(s[0], t[0], 0x8);
    }
  }

  /** Utf8 gives the one shortest byte string with these bits. */
  lemma {:induction false} Utf8Exact(cp: int, s: bytes)
    requires IsScalar(cp)
    ensures s == Utf8(cp) <==> Encodes(s, cp)
  {
    Utf8Encodes(cp);
    if Encodes(s, cp) { BitsOnce(s, Utf8(cp)); }
  }

  /** The payloads of the characters of a text, one after the other. */
  function Scalars(s: bytes): seq<int>
    decreases |s|
  {
    if s == [] || FrontLen(s) > |s| then [] else [Bits(s[..FrontLen(s)])] + Scalars(s[FrontLen(s)..])
  }

  lemma {:induction false} ScalarsStep(cp: int, s: bytes)
    requires IsScalar(cp)
    ensures Scalars(Utf8(cp) + s) == [cp] + Scalars(s)
  {
    var t := Utf8(cp) + s;
    Utf8Encodes(cp);
    assert t[0] == Utf8(cp)[0] && t[..|Utf8(cp)|] == Utf8(cp) && t[|Utf8(cp)|..] == s;
    assert FrontLen(t) == |Utf8(cp)|;
  }

  lemma {:induction false} ScalarsOf(cps: seq<int>)
    requires forall i | 0 <= i < |cps| :: IsScalar(cps[i])
    ensures Scalars(EncodeAll(cps)) == cps
    decreases |cps|
  {
    if cps != [] {
      ScalarsStep(cps[0], EncodeAll(cps[1..]));
      ScalarsOf(cps[1..]);
    }
  }

  // ---------------------------------------------------------------- well-formed texts

  lemma {:induction false} OfTwo(a: byte, b: byte) returns (cp: int)
    requires Next(Next(Start, a), b) == Start && a >= 0x80
    ensures IsScalar(cp) && Utf8(cp) == [a, b]
  {
    cp := (a - 0xC0) * 0x40 + (b - 0x80);
  }

  lemma {:induction false} OfThree(a: byte, b: byte, c: byte) returns (cp: int)
    requires Next(Next(Next(Start, a), b), c) == Start && a >= 0xE0
    ensures IsScalar(cp) && Utf8(cp) == [a, b, c]
  {
    var h := (a - 0xE0) * 0x40 + (b - 0x80);
    cp := h * 0x40 + (c - 0x80);
    Shift(a - 0xE0, b - 0x80);
    Shift(h, c - 0x80);
  }

  lemma {:induction false} OfFour(a: byte, b: byte, c: byte, d: byte) returns (cp: int)
    requires Next(Next(Next(Next(Start, a), b), c), d) == Start && a >= 0xF0
    ensures IsScalar(cp) && Utf8(cp) == [a, b, c, d]
  {
    var g := (a - 0xF0) * 0x40 + (b - 0x80);
    var h := g * 0x40 + (c - 0x80);
    cp := h * 0x40 + (d - 0x80);
    Shift(a - 0xF0, b - 0x80);
    Shift(g, c - 0x80);
    Shift(h, d - 0x80);
  }

  /** A well-formed text has a whole first character. */
  lemma {:induction false} FrontWhole(s: bytes)
    requires s != [] && IsUtf8(s)
    ensures FrontLen(s) <= |s| && Read(Start, s[..FrontLen(s)]) == Start && IsUtf8(s[FrontLen(s)..])
  {
    var n := if |s| < FrontLen(s) then |s| else FrontLen(s);
    assert s == s[..n] + s[n..];
    ReadBoth(Start, s[..n], s[n..]);
    ReadFour(Start, s[..n]);
    ReadBad(s[n..]);
  }

  /** It is the encoding of a scalar value. */
  lemma {:induction false} FrontRead(s: bytes) returns (cp: int)
    requires s != [] && IsUtf8(s)
    ensures FrontLen(s) <= |s| && IsScalar(cp) && Utf8(cp) == s[..FrontLen(s)] && IsUtf8(s[FrontLen(s)..])
  {
    FrontWhole(s);
    var n := FrontLen(s);
    ReadFour(Start, s[..n]);
    if n == 1 {
      cp := s[0];
    } else if n == 2 {
      cp := OfTwo(s[0], s[1]);
    } else if n == 3 {
      cp := OfThree(s[0], s[1], s[2]);
    } else {
      cp := OfFour(s[0], s[1], s[2], s[3]);
    }
  }

  /** Well-formed text is exactly what encodes a list of scalar values, and its bits are these values. */
  lemma {:induction false} Decoded(s: bytes) returns (cps: seq<int>)
    requires IsUtf8(s)
    ensures (forall i | 0 <= i < |cps| :: IsScalar(cps[i])) && EncodeAll(cps) == s && Scalars(s) == cps
    decreases |s|
  {
    if s == [] {
      cps := [];
    } else {
      var cp := FrontRead(s);
      var more := Decoded(s[FrontLen(s)..]);
      cps := [cp] + more;
      assert cps[1..] == more && s == s[..FrontLen(s)] + s[FrontLen(s)..];
      ScalarsStep(cp, s[FrontLen(s)..]);
    }
  }

  // ---------------------------------------------------------------- parts of well-formed text

  lemma {:induction false} AsciiDrop(s: bytes, n: nat)
    requires IsUtf8(s) && n <= |s| && forall i | 0 <= i < n :: s[i] < 0x80
    ensures IsUtf8(s[n..])
    decreases n
  {
    if n > 0 {
      AsciiDrop(s[1..], n - 1);
      assert s[1..][n - 1..] == s[n..];
    } else {
      assert s[n..] == s;
    }
  }

  lemma {:induction false} SpacesDrop(s: bytes)
    requires IsUtf8(s)
    ensures IsUtf8(SkipSpaces(s))
    decreases |s|
  {
    if s != [] && IsSpace(s[0]) { SpacesDrop(s[1..]); }
  }

  /** In front of an ASCII character a character has ended. */
  lemma {:induction false} AsciiHere(u: Expect, s: bytes)
    requires Read(u, s) == Start && s != [] && s[0] < 0x80
    ensures u == Start
  {
    ReadBad(s[1..]);
  }

  lemma {:induction false} AsciiUtf8(s: bytes)
    requires forall i | 0 <= i < |s| :: s[i] < 0x80
    ensures IsUtf8(s)
    decreases |s|
  {
    if s != [] { AsciiUtf8(s[1..]); }
  }
}
