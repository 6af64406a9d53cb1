/** What the printer writes, in terms of the grammar: no spaces, sorted members, and an escape only where
    one is needed. */
module JsonPrint {
  import opened Bytes
  import opened Notation
  import opened JsonText
  import JsonRound
  import opened JsonTokens
  import JsonExact
  import G = JsonGrammar

  /** The letter for a byte. */
  function Written(b: byte): G.Letter {
    if b == '\"' as int || b == '\\' as int then G.Short(b)
    else if b == 8 then G.Short('b' as int)
    else if b == 12 then G.Short('f' as int)
    else if b == 10 then G.Short('n' as int)
    else if b == 13 then G.Short('r' as int)
    else if b == 9 then G.Short('t' as int)
    else if b < 0x20 then G.Escape(Ascii("00") + [LOWER_DIGITS[b / 16] as int] + [LOWER_DIGITS[b % 16] as int], b)
    else G.Plain(b)
  }

  function WrittenAll(s: bytes): seq<G.Letter> {
    if s == [] then [] else [Written(s[0])] + WrittenAll(s[1..])
  }

  function WrittenNumber(i: int): G.Tree {
    var n: nat := if i < 0 then -i else i;
    G.TNumber(G.Figure(i < 0, Printed(n, 10, LOWER_DIGITS), None, None), n, 0)
  }

  /** The text for a value without doubles. */
  function Compact(v: Json): G.Tree
    decreases v
  {
    match v
    case JNull => G.TNull
    case JBool(b) => G.TBool(b)
    case JInt(i) => WrittenNumber(i)
    case JReal(_) => G.TNull
    case JStr(s) => G.TString(WrittenAll(s))
    case JArr(items) => G.TArray([], CompactItems(items))
    case JObj(members) => G.TObject([], CompactFields(members))
  }

  function CompactItems(items: seq<Json>): seq<G.Item>
    decreases items
  {
    if items == [] then [] else [G.Item([], Compact(items[0]), [])] + CompactItems(items[1..])
  }

  function CompactField(m: Member): G.Field
    decreases m
  {
    G.Field([], WrittenAll(m.key), [], G.Item([], Compact(m.value), []))
  }

  function CompactFields(members: seq<Member>): seq<G.Field>
    decreases members
  {
    if members == [] then [] else [CompactField(members[0])] + CompactFields(members[1..])
  }

  // ---------------------------------------------------------------- strings and numbers

  lemma {:induction false} LowerDigit(n: int)
    requires 0 <= n < 16
    ensures LOWER_DIGITS[n] as int == HexDigit(n)
  {
  }

  lemma {:induction false} ControlIs(high: byte, low: byte)
    ensures Ascii("\\u") + (Ascii("00") + [high] + [low]) == [BACKSLASH, LOWER_U, ZERO, ZERO, high, low]
  {
    Marks();
    assert Ascii("00") == [ZERO, ZERO];
  }

  lemma {:induction false} WrittenIs(b: byte)
    ensures G.LetterText(Written(b)) == Escaped(b)
  {
    if Written(b).Escape? {
      LowerDigit(b / 16);
      LowerDigit(b % 16);
      ControlIs(HexDigit(b / 16), HexDigit(b % 16));
    } else {
      Marks();
    }
  }

  lemma {:induction false} WrittenLetters(s: bytes)
    ensures G.LettersText(WrittenAll(s)) == EscapedBody(s)
    decreases |s|
  {
    if s != [] {
      WrittenIs(s[0]);
      WrittenLetters(s[1..]);
    }
  }

  lemma {:induction false} WrittenString(s: bytes)
    ensures G.StringText(WrittenAll(s)) == StringToken(s)
  {
    Marks();
    WrittenLetters(s);
  }

  lemma {:induction false} DecimalDigit(n: int)
    requires 0 <= n < 10
    ensures LOWER_DIGITS[n] as int == ZERO + n
  {
  }

  lemma {:induction false} PrintedDigits(n: nat)
    ensures Printed(n, 10, LOWER_DIGITS) == Digits(n)
    decreases n
  {
    DecimalDigit(n % 10);
    if n >= 10 { PrintedDigits(n / 10); }
  }

  lemma {:induction false} WrittenInt(i: int)
    ensures G.Text(WrittenNumber(i)) == IntText(i)
  {
    NumberMarks();
    PrintedDigits(if i < 0 then -i else i);
    var whole := Digits(if i < 0 then -i else i);
    assert whole + [] + [] == whole && [MINUS] + whole + [] + [] == [MINUS] + whole && [] + whole == whole;
  }

  // ---------------------------------------------------------------- values

  /** The printer writes this text. */
  lemma {:induction false} PrintIs(v: Json)
    requires DoubleFree(v)
    ensures Print(v) == G.Text(Compact(v))
    decreases v
  {
    JsonExact.Brackets();
    match v
    case JNull => JsonExact.Words();
    case JBool(b) => JsonExact.Words();
    case JInt(i) => WrittenInt(i);
    case JStr(s) => WrittenString(s);
    case JArr(items) => PrintItemsIs(items);
    case JObj(members) => PrintMembersIs(members);
  }

  lemma {:induction false} Bare(t: bytes)
    ensures [] + t + [] == t
  {
  }

  lemma {:induction false} PrintItemsIs(items: seq<Json>)
    requires forall i | 0 <= i < |items| :: DoubleFree(items[i])
    ensures PrintItems(items) == G.ItemsText(CompactItems(items)) && |CompactItems(items)| == |items|
    decreases items
  {
    if items != [] {
      JsonExact.Brackets();
      PrintIs(items[0]);
      PrintItemsIs(items[1..]);
      Bare(Print(items[0]));
    }
  }

  lemma {:induction false} BareField(key: bytes, value: bytes)
    ensures [] + key + [] + [COLON] + ([] + value + []) == key + [COLON] + value
  {
    Bare(key);
    Bare(value);
  }

  lemma {:induction false} PrintMemberIs(m: Member)
    requires DoubleFree(m.value)
    ensures PrintMember(m) == G.FieldText(CompactField(m))
    decreases m
  {
    JsonExact.Brackets();
    WrittenString(m.key);
    PrintIs(m.value);
    BareField(StringToken(m.key), Print(m.value));
  }

  lemma {:induction false} PrintMembersIs(members: seq<Member>)
    requires forall i | 0 <= i < |members| :: DoubleFree(members[i].value)
    ensures PrintMembers(members) == G.FieldsText(CompactFields(members)) && |CompactFields(members)| == |members|
    decreases members
  {
    if members != [] {
      JsonExact.Brackets();
      PrintMemberIs(members[0]);
      PrintMembersIs(members[1..]);
    }
  }
}
