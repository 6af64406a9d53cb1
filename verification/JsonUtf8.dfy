/** Strings that the JSON parser takes from well-formed UTF-8 are well-formed UTF-8. */
module JsonUtf8 {
  import opened Bytes
  import opened JsonText
  import opened Unicode

  /** A surrogate pair and the scalar value it stands for determine each other. */
  lemma {:induction false} PairScalar(hi: int, lo: int)
    requires IsHigh(hi) && IsLow(lo)
    ensures 0x10000 <= Paired(hi, lo) <= 0x10FFFF
    ensures hi == 0xD800 + (Paired(hi, lo) - 0x10000) / 0x400 && lo == 0xDC00 + (Paired(hi, lo) - 0x10000) % 0x400
  {
  }

  /** An escape is ASCII and stands for well-formed text. */
  lemma {:induction false} EscapeRead(s: bytes)
    requires s != [] && s[0] == BACKSLASH && IsUtf8(s) && Piece(s).Got?
    ensures IsUtf8(Piece(s).v) && IsUtf8(Piece(s).rest)
  {
    if s[1] == LOWER_U {
      var n := if IsHigh(Quad(s[2..]).v) then 12 else 6;
      assert forall i | 2 <= i < 6 :: s[i] == s[2..][i - 2];
      assert s[2..][4..] == s[6..];
      if n == 12 { QuadAscii(s); }
      AsciiDrop(s, n);
      Utf8Read(CodePoint(s[2..]).v);
    } else {
      AsciiDrop(s, 2);
      ReadFour(Start, Simple(s[1]));
    }
  }

  lemma {:induction false} QuadAscii(s: bytes)
    requires |s| >= 6 && s[2..][4..] == s[6..] && |s[6..]| >= 2 && s[6] == BACKSLASH && s[7] == LOWER_U
             && Quad(s[6..][2..]).Got?
    ensures |s| >= 12 && (forall i | 6 <= i < 12 :: s[i] < 0x80) && Quad(s[6..][2..]).rest == s[12..]
  {
    assert s[6..][2..] == s[8..] && s[8..][4..] == s[12..];
    assert forall i | 8 <= i < 12 :: s[i] == s[8..][i - 8];
  }

  /** A string from well-formed text is well-formed, and so is what follows it. */
  lemma {:induction false} StringUtf8(u: Expect, s: bytes, out: bytes)
    requires Read(u, s) == Start && Read(Start, out) == u && StringFrom(s, out).Got?
    ensures IsUtf8(StringFrom(s, out).v) && IsUtf8(StringFrom(s, out).rest)
    decreases |s|
  {
    ReadBad(s[1..]);
    if s[0] == QUOTE {
    } else if s[0] == BACKSLASH {
      EscapeRead(s);
      ReadBoth(Start, out, Piece(s).v);
      StringUtf8(Start, Piece(s).rest, out + Piece(s).v);
    } else {
      ReadBoth(Start, out, [s[0]]);
      ReadFour(u, [s[0]]);
      StringUtf8(Next(u, s[0]), s[1..], out + [s[0]]);
    }
  }

  lemma {:induction false} NumberAscii(s: bytes)
    requires NumberEnd(s, 0) > 0
    ensures forall i | 0 <= i < NumberEnd(s, 0) :: s[i] < 0x80
  {
  }

  /** All strings and keys in a value are well-formed. */
  predicate AllUtf8(v: Json) {
    match v
    case JStr(s) => IsUtf8(s)
    case JArr(items) => forall i | 0 <= i < |items| :: AllUtf8(items[i])
    case JObj(members) => forall i | 0 <= i < |members| :: IsUtf8(members[i].key) && AllUtf8(members[i].value)
    case _ => true
  }

  ghost predicate Keeps(r: Res<Json>) {
    r.Got? ==> AllUtf8(r.v) && IsUtf8(r.rest)
  }

  lemma {:induction false} LiteralUtf8(s: bytes, t: bytes, v: Json)
    requires IsUtf8(s) && AllUtf8(v) && t != [] && forall i | 0 <= i < |t| :: t[i] < 0x80
    ensures Keeps(Literal(s, t, v))
  {
    if StartsWith(s, t) {
      assert forall i | 0 <= i < |t| :: s[i] == s[..|t|][i];
      AsciiDrop(s, |t|);
    }
  }

  lemma {:induction false} ValueUtf8(s: bytes, depth: nat)
    requires IsUtf8(s)
    ensures Keeps(Value(s, depth))
    decreases |s|, 1
  {
    var t := SkipSpaces(s);
    SpacesDrop(s);
    if t == [] {
    } else if t[0] == LOWER_N {
      LiteralUtf8(t, NULL_TEXT, JNull);
    } else if t[0] == LOWER_T || t[0] == LOWER_F {
      LiteralUtf8(t, TRUE_TEXT, JBool(true));
      LiteralUtf8(t, FALSE_TEXT, JBool(false));
    } else if t[0] == MINUS || IsDigit(t[0]) {
      if NumberEnd(t, 0) > 0 {
        NumberAscii(t);
        AsciiDrop(t, NumberEnd(t, 0));
      }
    } else if t[0] == QUOTE {
      if StringFrom(t[1..], []).Got? { StringUtf8(Start, t[1..], []); }
    } else if t[0] == OPEN_BRACKET || t[0] == OPEN_BRACE {
      BracketUtf8(t, depth);
    }
  }

  lemma {:induction false} BracketUtf8(t: bytes, depth: nat)
    requires t != [] && IsUtf8(t) && (t[0] == OPEN_BRACKET || t[0] == OPEN_BRACE)
    ensures Keeps(Value(t, depth))
    decreases |t|, 0
  {
    var u := SkipSpaces(t[1..]);
    SpacesDrop(t[1..]);
    if u != [] {
      if u[0] == CLOSE_BRACKET || u[0] == CLOSE_BRACE { assert IsUtf8(u[1..]); }
      if t[0] == OPEN_BRACKET {
        ElementsUtf8(u, depth + 1, []);
      } else {
        MembersUtf8(u, depth + 1, []);
      }
    }
  }

  lemma {:induction false} ElementsUtf8(s: bytes, depth: nat, acc: seq<Json>)
    requires IsUtf8(s) && forall i | 0 <= i < |acc| :: AllUtf8(acc[i])
    ensures Keeps(Elements(s, depth, acc))
    decreases |s|, 2
  {
    ValueUtf8(s, depth);
    if Value(s, depth).Got? {
      var t := SkipSpaces(Value(s, depth).rest);
      SpacesDrop(Value(s, depth).rest);
      if t != [] && t[0] == COMMA {
        SpacesDrop(t[1..]);
        ElementsUtf8(SkipSpaces(t[1..]), depth, acc + [Value(s, depth).v]);
      }
    }
  }

  lemma {:induction false} PutUtf8(acc: seq<Member>, key: bytes, v: Json)
    requires AllUtf8(JObj(acc)) && IsUtf8(key) && AllUtf8(v)
    ensures AllUtf8(JObj(Put(acc, key, v)))
  {
    var put := Put(acc, key, v);
    forall i | 0 <= i < |put| ensures IsUtf8(put[i].key) && AllUtf8(put[i].value) {
      PutFrom(acc, key, v, i);
    }
  }

  lemma {:induction false} MembersUtf8(s: bytes, depth: nat, acc: seq<Member>)
    requires s != [] && IsUtf8(s) && AllUtf8(JObj(acc))
    ensures Keeps(Members(s, depth, acc))
    decreases |s|, 2
  {
    if s[0] == QUOTE && StringFrom(s[1..], []).Got? {
      StringUtf8(Start, s[1..], []);
      var key, t := StringFrom(s[1..], []).v, SkipSpaces(StringFrom(s[1..], []).rest);
      SpacesDrop(StringFrom(s[1..], []).rest);
      if t != [] && t[0] == COLON && Value(t[1..], depth).Got? {
        ValueUtf8(t[1..], depth);
        var v, w := Value(t[1..], depth).v, SkipSpaces(Value(t[1..], depth).rest);
        SpacesDrop(Value(t[1..], depth).rest);
        PutUtf8(acc, key, v);
        if w != [] && w[0] == COMMA && SkipSpaces(w[1..]) != [] {
          SpacesDrop(w[1..]);
          MembersUtf8(SkipSpaces(w[1..]), depth, Put(acc, key, v));
        }
      }
    }
  }

  /** From a well-formed document only well-formed strings and keys are returned. */
  lemma {:induction false} DocumentUtf8(s: bytes)
    requires IsUtf8(s) && Document(s).Some?
    ensures AllUtf8(Document(s).v)
  {
    ValueUtf8(s, 0);
  }
}
