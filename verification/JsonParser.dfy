/** The JSON parser, with its cursor, and the loop of the printer. */
module JsonParser {
  import opened Bytes
  import opened JsonText
  import JsonExact
  import G = JsonGrammar

  /** append_escaped_body */
  method AppendEscapedBody(value: bytes, out: bytes) returns (out': bytes)
    ensures out' == out + EscapedBody(value)
  {
    out' := out;
    var i := 0;
    while i < |value|
      invariant 0 <= i <= |value| && out' + EscapedBody(value[i..]) == out + EscapedBody(value)
    {
      Suffix(value, i);
      Two(out', Escaped(value[i]), EscapedBody(value[i + 1..]));
      out' := out' + Escaped(value[i]);
      i := i + 1;
    }
    assert value[i..] == [] && out' + [] == out';
  }

  /** The position behind the digits from i on. */
  method SkipDigits(s: bytes, i: nat) returns (j: nat)
    requires i <= |s|
    ensures j == DigitEnd(s, i)
  {
    j := i;
    while j < |s| && IsDigit(s[j])
      invariant i <= j <= |s| && DigitEnd(s, j) == DigitEnd(s, i)
    {
      j := j + 1;
    }
  }

  /** scan_number, integer part */
  method ScanInt(s: bytes, start: nat) returns (ok: bool, i: nat)
    requires start <= |s|
    ensures if ok then i == IntEnd(s, start) else IntEnd(s, start) == -1
  {
    ok, i := false, start;
    if i >= |s| { return; }
    if s[i] == ZERO {
      i := i + 1;
      if i < |s| && IsDigit(s[i]) { return; }
    } else if ZERO + 1 <= s[i] <= NINE {
      i := SkipDigits(s, i + 1);
    } else {
      return;
    }
    ok := true;
  }

  /** scan_number, fractional part */
  method ScanFrac(s: bytes, start: nat) returns (ok: bool, i: nat)
    requires start <= |s|
    ensures if ok then i == FracEnd(s, start) else FracEnd(s, start) == -1
  {
    ok, i := false, start;
    if i < |s| && s[i] == DOT {
      i := i + 1;
      if i >= |s| || !IsDigit(s[i]) { return; }
      i := SkipDigits(s, i);
    }
    ok := true;
  }

  /** scan_number, exponent part */
  method ScanExp(s: bytes, start: nat) returns (ok: bool, i: nat)
    requires start <= |s|
    ensures if ok then i == ExpEnd(s, start) else ExpEnd(s, start) == -1
  {
    ok, i := false, start;
    if i < |s| && (s[i] == LOWER_E || s[i] == UPPER_E) {
      i := i + 1;
      if i < |s| && (s[i] == PLUS || s[i] == MINUS) { i := i + 1; }
      if i >= |s| || !IsDigit(s[i]) { return; }
      i := SkipDigits(s, i);
    }
    ok := true;
  }

  /** scan_number */
  method ScanNumber(s: bytes, pos: nat) returns (ok: bool, sign: bool, len: nat)
    requires pos <= |s|
    ensures ok <==> NumberEnd(s, pos) > 0
    ensures ok ==> pos + len == NumberEnd(s, pos) && sign == (SignEnd(s, pos) > pos)
  {
    len := 0;
    sign := pos < |s| && s[pos] == MINUS;
    var i := if sign then pos + 1 else pos;
    ok, i := ScanInt(s, i);
    if !ok { return; }
    ok, i := ScanFrac(s, i);
    if !ok { return; }
    ok, i := ScanExp(s, i);
    if ok { len := i - pos; }
  }

  class Parser {
    var str: bytes
    var idx: nat

    ghost predicate Valid()
      reads this
    {
      idx <= |str|
    }

    ghost function Rest(): bytes
      requires Valid()
      reads this
    {
      str[idx..]
    }

    constructor ()
      ensures Valid() && Rest() == []
    {
      str, idx := [], 0;
    }

    method Load(s: bytes)
      modifies this
      ensures Valid() && Rest() == s
    {
      str, idx := s, 0;
    }

    /** skip_white_spaces */
    method SkipWhiteSpaces()
      requires Valid()
      modifies this`idx
      ensures Valid() && Rest() == SkipSpaces(old(Rest())) && idx >= old(idx)
    {
      while idx < |str| && IsSpace(str[idx])
        invariant old(idx) <= idx <= |str| && SkipSpaces(str[idx..]) == SkipSpaces(old(Rest()))
        decreases |str| - idx
      {
        Suffix(str, idx);
        idx := idx + 1;
      }
      if idx < |str| { Suffix(str, idx); }
    }

    /** get_next_token */
    method GetNextToken() returns (r: Option<byte>)
      requires Valid()
      modifies this`idx
      ensures r.None? <==> SkipSpaces(old(Rest())) == []
      ensures r.Some? ==>
                var t := SkipSpaces(old(Rest()));
                Valid() && idx > old(idx) && t == str[idx - 1..] && t[0] == r.v && Rest() == t[1..]
    {
      SkipWhiteSpaces();
      if idx == |str| { return None; }
      Suffix(str, idx);
      r := Some(str[idx]);
      idx := idx + 1;
    }

    /** What an operation leaves behind when it has to agree with what `want` says. */
    ghost predicate Agrees<T(!new)>(want: Res<T>, r: Option<T>)
      reads this
    {
      match r
      case None => want.Fail?
      case Some(v) => Valid() && want == Got(v, Rest())
    }

    /** m_str.compare(m_idx, |t|, t) == 0 */
    method Ahead(t: bytes) returns (yes: bool)
      requires Valid()
      ensures yes <==> StartsWith(Rest(), t)
    {
      yes := idx + |t| <= |str| && str[idx..idx + |t|] == t;
      if idx + |t| <= |str| { assert str[idx..][..|t|] == str[idx..idx + |t|]; }
    }

    /** parse_null */
    method ParseNull() returns (r: Option<Json>)
      requires Valid()
      modifies this`idx
      ensures Agrees(Literal(old(Rest()), NULL_TEXT, JNull), r)
    {
      var yes := Ahead(NULL_TEXT);
      if !yes { return None; }
      SuffixDrop(str, idx, 4);
      idx := idx + 4;
      r := Some(JNull);
    }

    /** parse_bool */
    method ParseBool() returns (r: Option<Json>)
      requires Valid()
      modifies this`idx
      ensures Agrees(if StartsWith(old(Rest()), TRUE_TEXT) then Literal(old(Rest()), TRUE_TEXT, JBool(true))
                     else Literal(old(Rest()), FALSE_TEXT, JBool(false)), r)
    {
      var yes := Ahead(TRUE_TEXT);
      if yes {
        SuffixDrop(str, idx, 4);
        idx := idx + 4;
        return Some(JBool(true));
      }
      yes := Ahead(FALSE_TEXT);
      if !yes { return None; }
      SuffixDrop(str, idx, 5);
      idx := idx + 5;
      r := Some(JBool(false));
    }

    /** Four hexadecimal digits of a \u escape. */
    method ReadQuad() returns (r: Option<int>)
      requires Valid()
      modifies this`idx
      ensures Agrees(Quad(old(Rest())), r)
    {
      if idx + 4 > |str| { return None; }
      var hi, k := 0, 0;
      ghost var s := str[idx..];
      while k < 4
        invariant 0 <= k <= 4 && forall j | 0 <= j < k :: Nibble(s[j]) < 16
        invariant hi == Hex(s, k)
      {
        var nib := Nibble(str[idx + k]);
        if nib >= 16 { return None; }
        hi := hi * 16 + nib;
        k := k + 1;
      }
      HexFour(s);
      SuffixDrop(str, idx, 4);
      idx := idx + 4;
      r := Some(hi);
    }

    /** The code point of a \u escape. */
    method ReadCodePoint() returns (r: Option<int>)
      requires Valid()
      modifies this`idx
      ensures Agrees(CodePoint(old(Rest())), r)
    {
      var hi := ReadQuad();
      if hi.None? { return None; }
      if IsHigh(hi.v) {
        if idx + 2 > |str| || str[idx] != BACKSLASH || str[idx + 1] != LOWER_U { return None; }
        SuffixDrop(str, idx, 2);
        idx := idx + 2;
        var lo := ReadQuad();
        if lo.None? || !IsLow(lo.v) { return None; }
        return Some(Paired(hi.v, lo.v));
      }
      if IsLow(hi.v) { return None; }
      r := hi;
    }

    /** An escape, behind its backslash. */
    method ReadEscape() returns (r: Option<bytes>)
      requires Valid() && idx > 0 && str[idx - 1] == BACKSLASH
      modifies this`idx
      ensures Agrees(Piece(str[old(idx) - 1..]), r)
    {
      Suffix(str, idx - 1);
      if idx >= |str| { return None; }
      SuffixDrop(str, idx - 1, 2);
      var esc := str[idx];
      idx := idx + 1;
      if esc == LOWER_U {
        var cp := ReadCodePoint();
        if cp.None? { return None; }
        return Some(Utf8(cp.v));
      }
      if Simple(esc) == [] { return None; }
      r := Some(Simple(esc));
    }

    /** parse_string */
    method ParseString() returns (r: Option<bytes>)
      requires Valid()
      modifies this`idx
      ensures Agrees(StringFrom(old(Rest()), []), r)
    {
      var out: bytes := [];
      ghost var goal := StringFrom(Rest(), []);
      while true
        invariant Valid() && StringFrom(str[idx..], out) == goal
        decreases |str| - idx
      {
        StringStops(str, idx, out);
        if idx >= |str| { return None; }
        var ch := str[idx];
        idx := idx + 1;
        if ch == QUOTE { return Some(out); }
        if ch != BACKSLASH {
          if ch < 0x20 { return None; }
          StringPlain(str, idx - 1, out);
          out := out + [ch];
        } else {
          ghost var before := idx - 1;
          var piece := ReadEscape();
          if piece.None? { return None; }
          StringEscape(str, before, out, piece.v, idx);
          out := out + piece.v;
        }
      }
    }

    /** parse_number, on a number without fraction and exponent */
    method ToInteger(sign: bool, base: nat, i: nat) returns (r: Option<int>)
      requires base <= i <= |str| && forall k | base <= k < i :: IsDigit(str[k])
      ensures var value := if sign then -DigitsValue(str[base..i]) else DigitsValue(str[base..i]);
              r == if i - base <= 19 && LLONG_MIN <= value <= LLONG_MAX then Some(value) else None
    {
      if i - base > 19 { return None; }
      var value := if sign then -DigitsValue(str[base..i]) else DigitsValue(str[base..i]);  // strtoll
      if !(LLONG_MIN <= value <= LLONG_MAX) { return None; }
      r := Some(value);
    }

    /** parse_number, behind scan_number: the number from pos to end */
    method ToNumber(sign: bool, pos: nat, end: nat) returns (r: Option<Json>)
      requires pos <= end <= |str| && sign == (SignEnd(str, pos) > pos)
      ensures r == NumberValue(str, pos, end)
    {
      var base := if sign then pos + 1 else pos;
      var i := SkipDigits(str, base);
      if i < end {
        if !Finite(str[pos..end]) { return None; }  // strtod
        return Some(JReal(str[pos..end]));
      }
      var value := ToInteger(sign, base, i);
      r := if value.None? then None else Some(JInt(value.v));
    }

    /** parse_number */
    method ParseNumber() returns (r: Option<Json>)
      requires Valid()
      modifies this`idx
      ensures Agrees(Number(old(Rest())), r)
    {
      var pos := idx;
      var ok, sign, len := ScanNumber(str, pos);
      if !ok {
        NumberFails(str, pos);
        return None;
      }
      idx := pos + len;
      r := ToNumber(sign, pos, idx);
      NumberAt(str, pos, idx);
    }

    /** parse at some depth, on an array behind its bracket and the first token after it */
    method ParseElements(depth: nat) returns (r: Option<Json>)
      requires Valid() && idx > 0
      modifies this`idx
      ensures Agrees(Elements(str[old(idx) - 1..], depth, []), r)
      ensures r.Some? ==> idx > old(idx) - 1
      decreases |str| - (idx - 1), 2
    {
      var arr: seq<Json> := [];
      while true
        invariant Valid() && idx >= old(idx)
        invariant idx > 0 && Elements(str[idx - 1..], depth, arr) == Elements(str[old(idx) - 1..], depth, [])
        decreases |str| - idx
      {
        idx := idx - 1;
        ghost var start := idx;
        var v := ParseValue(depth);
        if v.None? { return None; }
        arr := arr + [v.v];
        var ch := GetNextToken();
        if ch.None? { return None; }
        if ch.v == CLOSE_BRACKET { return Some(JArr(arr)); }
        if ch.v != COMMA { return None; }
        ch := GetNextToken();
        if ch.None? { return None; }
        assert |str[start..]| == |str| - start;
      }
    }

    /** parse at some depth, on an object behind its brace and the first token after it */
    method ParseMembers(depth: nat) returns (r: Option<Json>)
      requires Valid() && idx > 0
      modifies this`idx
      ensures Agrees(Members(str[old(idx) - 1..], depth, []), r)
      ensures r.Some? ==> idx > old(idx) - 1
      decreases |str| - (idx - 1), 2
    {
      var obj: seq<Member> := [];
      while true
        invariant Valid() && idx >= old(idx)
        invariant idx > 0 && Members(str[idx - 1..], depth, obj) == Members(str[old(idx) - 1..], depth, [])
        decreases |str| - idx
      {
        Suffix(str, idx - 1);
        if str[idx - 1] != QUOTE { return None; }
        ghost var start := idx;
        var key := ParseString();
        if key.None? { return None; }
        var ch := GetNextToken();
        if ch.None? || ch.v != COLON { return None; }
        var v := ParseValue(depth);
        if v.None? { return None; }
        obj := Put(obj, key.v, v.v);
        ch := GetNextToken();
        if ch.None? { return None; }
        if ch.v == CLOSE_BRACE { return Some(JObj(obj)); }
        if ch.v != COMMA { return None; }
        ch := GetNextToken();
        if ch.None? { return None; }
        assert |str[start..]| == |str| - start;
      }
    }

    /** parse(depth) */
    method ParseValue(depth: nat) returns (r: Option<Json>)
      requires Valid()
      modifies this`idx
      ensures Agrees(Value(old(Rest()), depth), r)
      ensures r.Some? ==> idx > old(idx)
      decreases |str| - idx, 1
    {
      var ch := GetNextToken();
      if ch.None? { return None; }
      if ch.v == OPEN_BRACKET || ch.v == OPEN_BRACE {
        r := ParseContainer(ch.v == OPEN_BRACKET, depth);
      } else {
        r := ParseScalar(ch.v, depth);
      }
    }

    /** parse(depth), on anything but an array or an object, behind its first character */
    method ParseScalar(ch: byte, ghost depth: nat) returns (r: Option<Json>)
      requires Valid() && idx > 0 && str[idx - 1] == ch && ch != OPEN_BRACKET && ch != OPEN_BRACE
      modifies this`idx
      ensures Agrees(ValueAt(str[old(idx) - 1..], depth), r) && (r.Some? ==> idx >= old(idx))
    {
      Suffix(str, idx - 1);
      if ch == LOWER_N {
        idx := idx - 1;
        r := ParseNull();
      } else if ch == LOWER_T || ch == LOWER_F {
        idx := idx - 1;
        r := ParseBool();
      } else if ch == MINUS || IsDigit(ch) {
        idx := idx - 1;
        r := ParseNumber();
      } else if ch == QUOTE {
        var x := ParseString();
        r := if x.None? then None else Some(JStr(x.v));
      } else {
        return None;
      }
    }

    /** parse(depth), behind an opening bracket or brace */
    method ParseContainer(isArray: bool, depth: nat) returns (r: Option<Json>)
      requires Valid() && idx > 0 && str[idx - 1] == (if isArray then OPEN_BRACKET else OPEN_BRACE)
      modifies this`idx
      ensures Agrees(ValueAt(str[old(idx) - 1..], depth), r) && (r.Some? ==> idx >= old(idx))
      decreases |str| - idx, 3
    {
      Suffix(str, idx - 1);
      if depth + 1 > K_MAX_DEPTH { return None; }
      var ch := GetNextToken();
      if ch.None? { return None; }
      if isArray {
        if ch.v == CLOSE_BRACKET { return Some(JArr([])); }
        r := ParseElements(depth + 1);
      } else {
        if ch.v == CLOSE_BRACE { return Some(JObj([])); }
        r := ParseMembers(depth + 1);
      }
    }

    /** parse: the method accepts exactly the texts of the grammar, with the values that they denote. */
    method Parse() returns (r: Option<Json>)
      requires Valid()
      modifies this`idx
      ensures r == Document(old(Rest()))
      ensures forall v :: r == Some(v) <==> G.Denotes(old(Rest()), v)
    {
      ghost var text := Rest();
      forall v ensures Document(text) == Some(v) <==> G.Denotes(text, v) { JsonExact.DocumentExact(text, v); }
      var v := ParseValue(0);
      if v.None? { return None; }
      SkipWhiteSpaces();
      if idx != |str| { return None; }
      r := v;
    }
  }

  function Hex(s: bytes, k: nat): int
    requires k <= |s|
  {
    if k == 0 then 0 else Hex(s, k - 1) * 16 + Nibble(s[k - 1])
  }

  lemma {:induction false} HexFour(s: bytes)
    requires |s| >= 4
    ensures Hex(s, 4) == ((Nibble(s[0]) * 16 + Nibble(s[1])) * 16 + Nibble(s[2])) * 16 + Nibble(s[3])
  {
    assert Hex(s, 1) == Nibble(s[0]);
    assert Hex(s, 2) == Hex(s, 1) * 16 + Nibble(s[1]);
    assert Hex(s, 3) == Hex(s, 2) * 16 + Nibble(s[2]);
  }

  /** Where parse_string's loop ends. */
  lemma {:induction false} StringStops(s: bytes, i: nat, out: bytes)
    requires i <= |s|
    ensures i == |s| ==> StringFrom(s[i..], out) == Fail
    ensures i < |s| && s[i] == QUOTE ==> StringFrom(s[i..], out) == Got(out, s[i + 1..])
    ensures i < |s| && s[i] != QUOTE && (if s[i] == BACKSLASH then Piece(s[i..]).Fail? else s[i] < 0x20) ==>
            StringFrom(s[i..], out) == Fail
  {
    if i < |s| { Suffix(s, i); }
  }

  /** One round of parse_string's loop. */
  lemma {:induction false} StringPlain(s: bytes, i: nat, out: bytes)
    requires i < |s| && s[i] != QUOTE && s[i] != BACKSLASH && s[i] >= 0x20
    ensures StringFrom(s[i..], out) == StringFrom(s[i + 1..], out + [s[i]])
  {
    Suffix(s, i);
  }

  lemma {:induction false} StringEscape(s: bytes, i: nat, out: bytes, p: bytes, j: nat)
    requires i < |s| && s[i] == BACKSLASH && j <= |s| && Piece(s[i..]) == Got(p, s[j..])
    ensures i < j && StringFrom(s[i..], out) == StringFrom(s[j..], out + p)
  {
    Suffix(s, i);
    assert |s[j..]| < |s[i..]|;
  }

  lemma {:induction false} DigitShift(s: bytes, pos: nat, i: nat)
    requires pos + i <= |s|
    ensures DigitEnd(s[pos..], i) == DigitEnd(s, pos + i) - pos
    decreases |s| - i
  {
    if pos + i < |s| && IsDigit(s[pos + i]) { DigitShift(s, pos, i + 1); }
  }

  function Shifted(j: int, pos: nat): int {
    if j < 0 then -1 else j - pos
  }

  lemma {:induction false} IntShift(s: bytes, pos: nat, i: nat)
    requires pos <= i <= |s|
    ensures IntEnd(s[pos..], i - pos) == Shifted(IntEnd(s, i), pos)
  {
    DigitShift(s, pos, i - pos);
  }

  lemma {:induction false} FracShift(s: bytes, pos: nat, i: nat)
    requires pos <= i <= |s|
    ensures FracEnd(s[pos..], i - pos) == Shifted(FracEnd(s, i), pos)
  {
    if i < |s| { DigitShift(s, pos, i + 1 - pos); }
  }

  lemma {:induction false} ExpShift(s: bytes, pos: nat, i: nat)
    requires pos <= i <= |s|
    ensures ExpEnd(s[pos..], i - pos) == Shifted(ExpEnd(s, i), pos)
  {
    if i + 1 <= |s| { DigitShift(s, pos, i + 1 - pos); }
    if i + 2 <= |s| { DigitShift(s, pos, i + 2 - pos); }
  }

  lemma {:induction false} AfterFracShift(s: bytes, pos: nat, i: int)
    requires pos <= |s| && (i == -1 || pos <= i <= |s|)
    ensures AfterFrac(s[pos..], Shifted(i, pos)) == Shifted(AfterFrac(s, i), pos)
  {
    if i >= 0 { ExpShift(s, pos, i); }
  }

  lemma {:induction false} AfterIntShift(s: bytes, pos: nat, i: int)
    requires pos <= |s| && (i == -1 || pos <= i <= |s|)
    ensures AfterInt(s[pos..], Shifted(i, pos)) == Shifted(AfterInt(s, i), pos)
  {
    if i >= 0 {
      FracShift(s, pos, i);
      AfterFracShift(s, pos, FracEnd(s, i));
    }
  }

  /** Looking at a number from its start changes positions only. */
  lemma {:induction false} NumberShift(s: bytes, pos: nat)
    requires pos <= |s|
    ensures SignEnd(s[pos..], 0) == SignEnd(s, pos) - pos && NumberEnd(s[pos..], 0) == Shifted(NumberEnd(s, pos), pos)
  {
    IntShift(s, pos, SignEnd(s, pos));
    AfterIntShift(s, pos, IntEnd(s, SignEnd(s, pos)));
  }

  lemma {:induction false} Slices(s: bytes, pos: nat, base: nat, i: nat, end: nat)
    requires pos <= base <= i <= end <= |s|
    ensures s[pos..][end - pos..] == s[end..] && s[pos..][..end - pos] == s[pos..end]
            && s[pos..][base - pos..i - pos] == s[base..i]
  {
  }

  /** What the number from pos to end stands for. */
  function NumberValue(s: bytes, pos: nat, end: nat): Option<Json>
    requires pos <= end <= |s|
  {
    var base := SignEnd(s, pos);
    var i := DigitEnd(s, base);
    NumberOf(s[pos..end], base > pos, s[base..i], i < end)
  }

  function NumberOf(text: bytes, sign: bool, digits: bytes, more: bool): Option<Json>
    requires forall i | 0 <= i < |digits| :: IsDigit(digits[i])
  {
    var value := if sign then -DigitsValue(digits) else DigitsValue(digits);
    if more then (if Finite(text) then Some(JReal(text)) else None)
    else if |digits| <= 19 && LLONG_MIN <= value <= LLONG_MAX then Some(JInt(value)) else None
  }

  lemma {:induction false} NumberIs(s: bytes, n: nat)
    requires NumberEnd(s, 0) == n
    ensures n <= |s| && Number(s) == match NumberValue(s, 0, n) case None => Fail case Some(v) => Got(v, s[n..])
  {
    assert s[0..n] == s[..n];
  }

  lemma {:induction false} ValueShift(s: bytes, pos: nat, end: nat)
    requires pos <= |s| && NumberEnd(s, pos) == end
    ensures end - pos <= |s[pos..]| && NumberValue(s[pos..], 0, end - pos) == NumberValue(s, pos, end)
  {
    var base := SignEnd(s, pos);
    NumberShift(s, pos);
    DigitShift(s, pos, base - pos);
    DigitsInside(s, pos, end);
    Slices(s, pos, base, DigitEnd(s, base), end);
    assert s[pos..][0..end - pos] == s[pos..end];
  }

  lemma {:induction false} DigitsInside(s: bytes, pos: nat, end: nat)
    requires pos <= |s| && NumberEnd(s, pos) == end
    ensures DigitEnd(s, SignEnd(s, pos)) <= end
  {
  }

  lemma {:induction false} NumberAt(s: bytes, pos: nat, end: nat)
    requires pos <= |s| && NumberEnd(s, pos) == end
    ensures end <= |s| && Number(s[pos..]) == match NumberValue(s, pos, end) case None => Fail case Some(v) => Got(v,
                s[end..])
  {
    NumberShift(s, pos);
    NumberIs(s[pos..], end - pos);
    ValueShift(s, pos, end);
    SuffixDrop(s, pos, end - pos);
  }

  lemma {:induction false} NumberFails(s: bytes, pos: nat)
    requires pos <= |s| && NumberEnd(s, pos) == -1
    ensures Number(s[pos..]) == Fail
  {
    NumberShift(s, pos);
  }
}
