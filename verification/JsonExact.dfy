/** The parser accepts exactly the texts of the grammar, and gives them their meaning. */
module JsonExact {
  import opened Bytes
  import opened Gaps
  import opened Notation
  import opened JsonText
  import JsonRound
  import opened JsonTokens
  import G = JsonGrammar

  // ---------------------------------------------------------------- tokens

  lemma {:induction false} Brackets()
    ensures Ascii("[") == [OPEN_BRACKET] && Ascii("]") == [CLOSE_BRACKET] && Ascii(",") == [COMMA]
    ensures Ascii("{") == [OPEN_BRACE] && Ascii("}") == [CLOSE_BRACE] && Ascii(":") == [COLON]
  {
  }

  lemma {:induction false} Words()
    ensures Ascii("null") == NULL_TEXT && Ascii("true") == TRUE_TEXT && Ascii("false") == FALSE_TEXT
  {
  }

  /** The first byte of a value tells what it is. */
  predicate Starts(t: G.Tree, b: byte) {
    match t
    case TNull => b == LOWER_N
    case TBool(x) => b == if x then LOWER_T else LOWER_F
    case TNumber(_, _, _) => b == MINUS || IsDigit(b)
    case TString(_) => b == QUOTE
    case TArray(_, _) => b == OPEN_BRACKET
    case TObject(_, _) => b == OPEN_BRACE
  }

  lemma {:induction false} FigureStarts(f: G.Figure)
    requires G.FigureOk(f)
    ensures G.FigureText(f) != [] && (G.FigureText(f)[0] == MINUS || IsDigit(G.FigureText(f)[0]))
  {
    NumberMarks();
    DigitsAre(f.whole);
    var t := G.FigureText(f);
    assert t[0] == if f.minus then MINUS else f.whole[0];
  }

  lemma {:induction false} TextStarts(t: G.Tree)
    requires G.TreeOk(t)
    ensures G.Text(t) != [] && Starts(t, G.Text(t)[0])
  {
    Brackets();
    Marks();
    if t.TNumber? { FigureStarts(t.f); } else if t.TNull? || t.TBool? { Words(); }
  }

  /** Behind a value in a list there are spaces and a delimiter. */
  predicate IsDelimiter(b: byte) {
    b == COMMA || b == CLOSE_BRACKET || b == CLOSE_BRACE
  }

  lemma {:induction false} GapStops(gap: bytes, b: byte, rest: bytes)
    requires Spaces(gap) && IsDelimiter(b)
    ensures JsonRound.NoNumberByte(gap + ([b] + rest))
  {
    if gap != [] { SpaceIs(gap[0]); }
  }

  lemma {:induction false} EndStops(gap: bytes)
    requires Spaces(gap)
    ensures JsonRound.NoNumberByte(gap)
  {
    if gap != [] { SpaceIs(gap[0]); }
  }

  lemma {:induction false} AlwaysStops(f: G.Figure, rest: bytes)
    requires JsonRound.NoNumberByte(rest)
    ensures G.Stops(f, rest)
  {
    if rest != [] {
      DecimalIs(rest[0]);
      NumberMarks();
    }
  }

  lemma {:induction false} ValueSkips(s: bytes, depth: nat)
    ensures Value(SkipSpaces(s), depth) == Value(s, depth)
    ensures Value(s, depth) == if SkipSpaces(s) == [] then Fail else ValueAt(SkipSpaces(s), depth)
  {
    SkipAgain(s);
  }

  // ---------------------------------------------------------------- texts are read

  lemma {:induction false} StringRead(letters: seq<G.Letter>, depth: nat, rest: bytes)
    requires G.LettersOk(letters)
    ensures ValueAt(G.StringText(letters) + rest, depth) == Got(JStr(G.LettersBytes(letters)), rest)
  {
    Marks();
    Two([QUOTE] + G.LettersText(letters), [QUOTE], rest);
    Two([QUOTE], G.LettersText(letters), [QUOTE] + rest);
    Cons(QUOTE, G.LettersText(letters) + ([QUOTE] + rest));
    LettersRead(letters, rest, []);
    assert [] + G.LettersBytes(letters) == G.LettersBytes(letters);
  }

  lemma {:induction false} WordRead(t: G.Tree, depth: nat, rest: bytes)
    requires t.TNull? || t.TBool?
    ensures ValueAt(G.Text(t) + rest, depth) == Got(G.Meaning(t), rest)
  {
    var s := G.Text(t) + rest;
    Words();
    JsonRound.Ahead(G.Text(t), rest);
    assert s[0] == G.Text(t)[0];
    if t == G.TBool(false) { assert !StartsWith(s, TRUE_TEXT) by { assert s[..4][0] == LOWER_F; } }
  }

  lemma {:induction false} NumberStep(s: bytes, depth: nat)
    requires s != [] && (s[0] == MINUS || IsDigit(s[0]))
    ensures ValueAt(s, depth) == Number(s)
  {
  }

  lemma {:induction false} ScalarRead(t: G.Tree, depth: nat, rest: bytes)
    requires G.TreeOk(t) && JsonRound.NoNumberByte(rest) && !t.TArray? && !t.TObject?
    ensures ValueAt(G.Text(t) + rest, depth) == Got(G.Meaning(t), rest)
  {
    if t.TNumber? {
      FigureStarts(t.f);
      NumberStep(G.Text(t) + rest, depth);
      AlwaysStops(t.f, rest);
      NumberRead(t, rest);
    } else if t.TString? {
      StringRead(t.letters, depth, rest);
    } else {
      WordRead(t, depth, rest);
    }
  }

  lemma {:induction false} ValueRead(t: G.Tree, depth: nat, gap: bytes, rest: bytes)
    requires Spaces(gap) && G.TreeOk(t) && JsonRound.NoNumberByte(rest) && depth + G.Nesting(t) <= K_MAX_DEPTH
    ensures Value(gap + (G.Text(t) + rest), depth) == Got(G.Meaning(t), rest)
    decreases t, 1
  {
    var s := G.Text(t) + rest;
    TextStarts(t);
    SkipTo(gap, s);
    if t.TArray? {
      ArrayRead(t, depth, rest);
    } else if t.TObject? {
      ObjectRead(t, depth, rest);
    } else {
      ScalarRead(t, depth, rest);
    }
  }

  lemma {:induction false} ArrayStep(y: bytes, depth: nat)
    ensures var u := SkipSpaces(y);
            ValueAt([OPEN_BRACKET] + y, depth) ==
            if depth + 1 > K_MAX_DEPTH || u == [] then Fail
            else if u[0] == CLOSE_BRACKET then Got(JArr([]), u[1..])
            else Elements(u, depth + 1, [])
  {
    Cons(OPEN_BRACKET, y);
  }

  lemma {:induction false} ElementsSkip(s: bytes, depth: nat, acc: seq<Json>)
    ensures Elements(SkipSpaces(s), depth, acc) == Elements(s, depth, acc)
    ensures Elements(s, depth, acc).Got? ==> SkipSpaces(s) != []
  {
    ValueSkips(s, depth);
  }

  lemma {:induction false} ElementStep(s: bytes, depth: nat, acc: seq<Json>, v: Json, gap: bytes, b: byte, tail: bytes)
    requires Value(s, depth) == Got(v, gap + ([b] + tail)) && Spaces(gap) && IsDelimiter(b)
    ensures Elements(s, depth, acc) ==
            if b == CLOSE_BRACKET then Got(JArr(acc + [v]), tail)
            else if b != COMMA || SkipSpaces(tail) == [] then Fail
            else Elements(SkipSpaces(tail), depth, acc + [v])
  {
    Cons(b, tail);
    SkipTo(gap, [b] + tail);
  }

  /** What is behind the first item of a list: its last delimiter, or a comma and the other items. */
  function BehindItem(xs: seq<G.Item>, close: byte, rest: bytes): bytes
    requires xs != []
  {
    if |xs| == 1 then [close] + rest else [COMMA] + (G.ItemsText(xs[1..]) + ([close] + rest))
  }

  lemma {:induction false} ItemShape(x: G.Item, more: bytes)
    ensures G.ItemText(x) + more == x.before + (G.Text(x.value) + (x.after + more))
  {
    Two(x.before + G.Text(x.value), x.after, more);
    Two(x.before, G.Text(x.value), x.after + more);
  }

  lemma {:induction false} ItemsShape(xs: seq<G.Item>, close: byte, rest: bytes)
    requires xs != []
    ensures G.ItemsText(xs) + ([close] + rest) ==
            xs[0].before + (G.Text(xs[0].value) + (xs[0].after + BehindItem(xs, close, rest)))
  {
    var first, end := G.ItemText(xs[0]), [close] + rest;
    if |xs| == 1 {
      assert first + [] == first;
    } else {
      Brackets();
      Two(first, [COMMA] + G.ItemsText(xs[1..]), end);
      Two([COMMA], G.ItemsText(xs[1..]), end);
    }
    ItemShape(xs[0], BehindItem(xs, close, rest));
  }

  lemma {:induction false} ElementsRead(xs: seq<G.Item>, depth: nat, acc: seq<Json>, rest: bytes)
    requires xs != [] && (forall i | 0 <= i < |xs| :: G.ItemOk(xs[i])) && depth + G.ItemsNesting(xs) <= K_MAX_DEPTH
    ensures Elements(G.ItemsText(xs) + ([CLOSE_BRACKET] + rest), depth, acc) == Got(JArr(acc + G.Meanings(xs)), rest)
    decreases xs, 2
  {
    var s, x := G.ItemsText(xs) + ([CLOSE_BRACKET] + rest), xs[0];
    var b := if |xs| == 1 then CLOSE_BRACKET else COMMA;
    var tail := if |xs| == 1 then rest else G.ItemsText(xs[1..]) + ([CLOSE_BRACKET] + rest);
    ItemsShape(xs, CLOSE_BRACKET, rest);
    GapStops(x.after, b, tail);
    ValueRead(x.value, depth, x.before, x.after + ([b] + tail));
    ElementStep(s, depth, acc, G.Meaning(x.value), x.after, b, tail);
    Regrouped(acc, G.Meaning(x.value), G.Meanings(xs[1..]));
    if |xs| > 1 {
      ElementsRead(xs[1..], depth, acc + [G.Meaning(x.value)], rest);
      ElementsSkip(tail, depth, acc + [G.Meaning(x.value)]);
    }
  }

  lemma {:induction false} Regrouped<T>(acc: seq<T>, x: T, more: seq<T>)
    ensures acc + [x] + more == acc + ([x] + more)
    ensures more == [] ==> acc + [x] == acc + ([x] + more)
  {
  }

  lemma {:induction false} ArrayShape(t: G.Tree, rest: bytes)
    requires t.TArray?
    ensures G.Text(t) + rest == [OPEN_BRACKET] + ((if t.items == [] then t.gap else G.ItemsText(t.items)) +
                                                  ([CLOSE_BRACKET] + rest))
  {
    Brackets();
    var body := if t.items == [] then t.gap else G.ItemsText(t.items);
    Two([OPEN_BRACKET] + body, [CLOSE_BRACKET], rest);
    Two([OPEN_BRACKET], body, [CLOSE_BRACKET] + rest);
  }

  /** Items start with a value, not with the bracket that ends them. */
  lemma {:induction false} ItemsStart(xs: seq<G.Item>, close: byte, rest: bytes)
    requires xs != [] && G.ItemOk(xs[0])
    ensures var u := SkipSpaces(G.ItemsText(xs) + ([close] + rest)); u != [] && Starts(xs[0].value, u[0])
  {
    var x := xs[0];
    var more := x.after + BehindItem(xs, close, rest);
    ItemsShape(xs, close, rest);
    TextStarts(x.value);
    SkipTo(x.before, G.Text(x.value) + more);
  }

  lemma {:induction false} EmptyArray(gap: bytes, depth: nat, rest: bytes)
    requires Spaces(gap) && depth < K_MAX_DEPTH
    ensures ValueAt([OPEN_BRACKET] + (gap + ([CLOSE_BRACKET] + rest)), depth) == Got(JArr([]), rest)
  {
    ArrayStep(gap + ([CLOSE_BRACKET] + rest), depth);
    Cons(CLOSE_BRACKET, rest);
    SkipTo(gap, [CLOSE_BRACKET] + rest);
  }

  lemma {:induction false} FullArray(xs: seq<G.Item>, depth: nat, rest: bytes)
    requires xs != [] && (forall i | 0 <= i < |xs| :: G.ItemOk(xs[i])) && depth + 1 + G.ItemsNesting(xs) <= K_MAX_DEPTH
    ensures ValueAt([OPEN_BRACKET] + (G.ItemsText(xs) + ([CLOSE_BRACKET] + rest)), depth) ==
            Got(JArr(G.Meanings(xs)), rest)
    decreases xs, 3
  {
    var y := G.ItemsText(xs) + ([CLOSE_BRACKET] + rest);
    ArrayStep(y, depth);
    ItemsStart(xs, CLOSE_BRACKET, rest);
    ElementsRead(xs, depth + 1, [], rest);
    ElementsSkip(y, depth + 1, []);
    assert [] + G.Meanings(xs) == G.Meanings(xs);
  }

  lemma {:induction false} ArrayRead(t: G.Tree, depth: nat, rest: bytes)
    requires t.TArray? && G.TreeOk(t) && depth + G.Nesting(t) <= K_MAX_DEPTH
    ensures ValueAt(G.Text(t) + rest, depth) == Got(G.Meaning(t), rest)
    decreases t, 0
  {
    ArrayShape(t, rest);
    if t.items == [] { EmptyArray(t.gap, depth, rest); } else { FullArray(t.items, depth, rest); }
  }

  lemma {:induction false} ObjectStep(y: bytes, depth: nat)
    ensures var u := SkipSpaces(y);
            ValueAt([OPEN_BRACE] + y, depth) ==
            if depth + 1 > K_MAX_DEPTH || u == [] then Fail
            else if u[0] == CLOSE_BRACE then Got(JObj([]), u[1..])
            else Members(u, depth + 1, [])
  {
    Cons(OPEN_BRACE, y);
  }

  lemma {:induction false} MemberStep(s: bytes, depth: nat, acc: seq<Member>, key: bytes, between: bytes, y: bytes,
                                      v: Json, gap: bytes, b: byte, tail: bytes)
    requires s != [] && s[0] == QUOTE && StringFrom(s[1..], []) == Got(key, between + ([COLON] + y))
    requires Value(y, depth) == Got(v, gap + ([b] + tail)) && Spaces(between) && Spaces(gap) && IsDelimiter(b)
    ensures Members(s, depth, acc) ==
            if b == CLOSE_BRACE then Got(JObj(Put(acc, key, v)), tail)
            else if b != COMMA || SkipSpaces(tail) == [] then Fail
            else Members(SkipSpaces(tail), depth, Put(acc, key, v))
  {
    Cons(COLON, y);
    SkipTo(between, [COLON] + y);
    Cons(b, tail);
    SkipTo(gap, [b] + tail);
  }

  function BehindField(xs: seq<G.Field>, rest: bytes): bytes
    requires xs != []
  {
    if |xs| == 1 then [CLOSE_BRACE] + rest else [COMMA] + (G.FieldsText(xs[1..]) + ([CLOSE_BRACE] + rest))
  }

  lemma {:induction false} FieldShape(x: G.Field, more: bytes)
    ensures G.FieldText(x) + more ==
            x.before + ([QUOTE] + (G.LettersText(x.key) + ([QUOTE] +
            (x.between + ([COLON] + (x.value.before + (G.Text(x.value.value) + (x.value.after + more))))))))
  {
    Marks();
    Brackets();
    var quoted, item := G.StringText(x.key), G.ItemText(x.value) + more;
    ItemShape(x.value, more);
    Two(x.before + quoted + x.between + [COLON], G.ItemText(x.value), more);
    Two(x.before + quoted + x.between, [COLON], item);
    Two(x.before + quoted, x.between, [COLON] + item);
    Two(x.before, quoted, x.between + ([COLON] + item));
    Two([QUOTE] + G.LettersText(x.key), [QUOTE], x.between + ([COLON] + item));
    Two([QUOTE], G.LettersText(x.key), [QUOTE] + (x.between + ([COLON] + item)));
  }

  lemma {:induction false} FieldsShape(xs: seq<G.Field>, rest: bytes)
    requires xs != []
    ensures G.FieldsText(xs) + ([CLOSE_BRACE] + rest) == G.FieldText(xs[0]) + BehindField(xs, rest)
  {
    var first, end := G.FieldText(xs[0]), [CLOSE_BRACE] + rest;
    if |xs| == 1 {
      assert first + [] == first;
    } else {
      Brackets();
      Two(first, [COMMA] + G.FieldsText(xs[1..]), end);
      Two([COMMA], G.FieldsText(xs[1..]), end);
    }
  }

  /** One field and what is behind it. */
  lemma {:induction false} FieldRead(x: G.Field, depth: nat, acc: seq<Member>, b: byte, tail: bytes)
    requires G.FieldOk(x) && IsDelimiter(b) && depth + G.Nesting(x.value.value) <= K_MAX_DEPTH
    ensures var s, acc' := SkipSpaces(G.FieldText(x) + ([b] + tail)),
                           Put(acc, G.LettersBytes(x.key), G.Meaning(x.value.value));
            && s != [] && s[0] == QUOTE
            && Members(s, depth, acc) ==
               if b == CLOSE_BRACE then Got(JObj(acc'), tail)
               else if b != COMMA || SkipSpaces(tail) == [] then Fail
               else Members(SkipSpaces(tail), depth, acc')
    decreases x, 1
  {
    var v := x.value;
    var y := v.before + (G.Text(v.value) + (v.after + ([b] + tail)));
    var z := G.LettersText(x.key) + ([QUOTE] + (x.between + ([COLON] + y)));
    FieldShape(x, [b] + tail);
    Cons(QUOTE, z);
    SkipTo(x.before, [QUOTE] + z);
    LettersRead(x.key, x.between + ([COLON] + y), []);
    assert [] + G.LettersBytes(x.key) == G.LettersBytes(x.key);
    GapStops(v.after, b, tail);
    ValueRead(v.value, depth, v.before, v.after + ([b] + tail));
    MemberStep([QUOTE] + z, depth, acc, G.LettersBytes(x.key), x.between, y, G.Meaning(v.value), v.after, b, tail);
  }

  lemma {:induction false} MembersRead(xs: seq<G.Field>, depth: nat, acc: seq<Member>, rest: bytes)
    requires xs != [] && (forall i | 0 <= i < |xs| :: G.FieldOk(xs[i])) && depth + G.FieldsNesting(xs) <= K_MAX_DEPTH
    ensures var s := SkipSpaces(G.FieldsText(xs) + ([CLOSE_BRACE] + rest));
            s != [] && s[0] == QUOTE && Members(s, depth, acc) == Got(JObj(G.Assigned(xs, acc)), rest)
    decreases xs, 2
  {
    var x := xs[0];
    var b := if |xs| == 1 then CLOSE_BRACE else COMMA;
    var tail := if |xs| == 1 then rest else G.FieldsText(xs[1..]) + ([CLOSE_BRACE] + rest);
    FieldsShape(xs, rest);
    FieldRead(x, depth, acc, b, tail);
    if |xs| > 1 {
      MembersRead(xs[1..], depth, Put(acc, G.LettersBytes(x.key), G.Meaning(x.value.value)), rest);
    }
  }

  lemma {:induction false} ObjectShape(t: G.Tree, rest: bytes)
    requires t.TObject?
    ensures G.Text(t) + rest == [OPEN_BRACE] + ((if t.fields == [] then t.gap else G.FieldsText(t.fields)) +
                                                ([CLOSE_BRACE] + rest))
  {
    Brackets();
    var body := if t.fields == [] then t.gap else G.FieldsText(t.fields);
    Two([OPEN_BRACE] + body, [CLOSE_BRACE], rest);
    Two([OPEN_BRACE], body, [CLOSE_BRACE] + rest);
  }

  lemma {:induction false} EmptyObject(gap: bytes, depth: nat, rest: bytes)
    requires Spaces(gap) && depth < K_MAX_DEPTH
    ensures ValueAt([OPEN_BRACE] + (gap + ([CLOSE_BRACE] + rest)), depth) == Got(JObj([]), rest)
  {
    ObjectStep(gap + ([CLOSE_BRACE] + rest), depth);
    Cons(CLOSE_BRACE, rest);
    SkipTo(gap, [CLOSE_BRACE] + rest);
  }

  lemma {:induction false} FullObject(xs: seq<G.Field>, depth: nat, rest: bytes)
    requires xs != [] && (forall i | 0 <= i < |xs| :: G.FieldOk(xs[i]))
    requires depth + 1 + G.FieldsNesting(xs) <= K_MAX_DEPTH
    ensures ValueAt([OPEN_BRACE] + (G.FieldsText(xs) + ([CLOSE_BRACE] + rest)), depth) ==
            Got(JObj(G.Assigned(xs, [])), rest)
    decreases xs, 3
  {
    ObjectStep(G.FieldsText(xs) + ([CLOSE_BRACE] + rest), depth);
    MembersRead(xs, depth + 1, [], rest);
  }

  lemma {:induction false} ObjectRead(t: G.Tree, depth: nat, rest: bytes)
    requires t.TObject? && G.TreeOk(t) && depth + G.Nesting(t) <= K_MAX_DEPTH
    ensures ValueAt(G.Text(t) + rest, depth) == Got(G.Meaning(t), rest)
    decreases t, 0
  {
    ObjectShape(t, rest);
    if t.fields == [] { EmptyObject(t.gap, depth, rest); } else { FullObject(t.fields, depth, rest); }
  }

  // ---------------------------------------------------------------- what is read is a text

  /** The same list, with more spaces in front of it. */
  function WiderItems(gap: bytes, xs: seq<G.Item>): seq<G.Item>
    requires xs != []
  {
    [xs[0].(before := gap + xs[0].before)] + xs[1..]
  }

  lemma {:induction false} WiderItemsAre(gap: bytes, xs: seq<G.Item>)
    requires xs != [] && Spaces(gap) && forall i | 0 <= i < |xs| :: G.ItemOk(xs[i])
    ensures var ys := WiderItems(gap, xs);
            && (forall i | 0 <= i < |ys| :: G.ItemOk(ys[i])) && G.ItemsText(ys) == gap + G.ItemsText(xs)
            && G.Meanings(ys) == G.Meanings(xs) && G.ItemsNesting(ys) == G.ItemsNesting(xs)
  {
    var ys, x := WiderItems(gap, xs), xs[0];
    assert ys[1..] == xs[1..];
    BothSpaces(gap, x.before);
    Two(gap, x.before, G.Text(x.value));
    Two(gap, x.before + G.Text(x.value), x.after);
    Brackets();
    if |xs| > 1 { Two(gap, G.ItemText(x), [COMMA] + G.ItemsText(xs[1..])); }
  }

  function WiderFields(gap: bytes, xs: seq<G.Field>): seq<G.Field>
    requires xs != []
  {
    [xs[0].(before := gap + xs[0].before)] + xs[1..]
  }

  lemma {:induction false} WiderFieldsAre(gap: bytes, xs: seq<G.Field>, members: seq<Member>)
    requires xs != [] && Spaces(gap) && forall i | 0 <= i < |xs| :: G.FieldOk(xs[i])
    ensures var ys := WiderFields(gap, xs);
            && (forall i | 0 <= i < |ys| :: G.FieldOk(ys[i])) && G.FieldsText(ys) == gap + G.FieldsText(xs)
            && G.Assigned(ys, members) == G.Assigned(xs, members) && G.FieldsNesting(ys) == G.FieldsNesting(xs)
  {
    var ys, x := WiderFields(gap, xs), xs[0];
    assert ys[1..] == xs[1..];
    BothSpaces(gap, x.before);
    Brackets();
    Two(gap, x.before, G.StringText(x.key));
    Two(gap, x.before + G.StringText(x.key), x.between);
    Two(gap, x.before + G.StringText(x.key) + x.between, [COLON]);
    Two(gap, x.before + G.StringText(x.key) + x.between + [COLON], G.ItemText(x.value));
    if |xs| > 1 { Two(gap, G.FieldText(x), [COMMA] + G.FieldsText(xs[1..])); }
  }

  lemma {:induction false} LiteralOf(u: bytes, text: bytes)
    requires StartsWith(u, text)
    ensures u == text + u[|text|..]
  {
  }

  lemma {:induction false} StringOf(u: bytes) returns (letters: seq<G.Letter>)
    requires u != [] && u[0] == QUOTE && StringFrom(u[1..], []).Got?
    ensures G.LettersOk(letters) && u == G.StringText(letters) + StringFrom(u[1..], []).rest
    ensures G.LettersBytes(letters) == StringFrom(u[1..], []).v
  {
    letters := LettersOf(u[1..], []);
    var rest := StringFrom(u[1..], []).rest;
    Marks();
    HeadTail(u);
    Two([QUOTE] + G.LettersText(letters), [QUOTE], rest);
    Two([QUOTE], G.LettersText(letters), [QUOTE] + rest);
    assert [] + G.LettersBytes(letters) == G.LettersBytes(letters);
  }

  lemma {:induction false} ScalarOf(u: bytes, depth: nat) returns (t: G.Tree)
    requires u != [] && ValueAt(u, depth).Got? && u[0] != OPEN_BRACKET && u[0] != OPEN_BRACE
    ensures G.TreeOk(t) && u == G.Text(t) + ValueAt(u, depth).rest && G.Meaning(t) == ValueAt(u, depth).v
    ensures G.Nesting(t) == 0
  {
    if u[0] == QUOTE {
      var letters := StringOf(u);
      t := G.TString(letters);
    } else if u[0] == LOWER_N || u[0] == LOWER_T || u[0] == LOWER_F {
      Words();
      t := if u[0] == LOWER_N then G.TNull else G.TBool(StartsWith(u, TRUE_TEXT));
      LiteralOf(u, G.Text(t));
    } else {
      t := NumberOf(u);
    }
  }

  lemma {:induction false} ValueOf(s: bytes, depth: nat) returns (gap: bytes, t: G.Tree)
    requires Value(s, depth).Got? && depth <= K_MAX_DEPTH
    ensures Spaces(gap) && G.TreeOk(t) && s == gap + (G.Text(t) + Value(s, depth).rest)
    ensures G.Meaning(t) == Value(s, depth).v && depth + G.Nesting(t) <= K_MAX_DEPTH
    decreases |s|, 2
  {
    gap := Skipped(s);
    var u := SkipSpaces(s);
    if u[0] == OPEN_BRACKET {
      t := ArrayOf(u, depth);
    } else if u[0] == OPEN_BRACE {
      t := ObjectOf(u, depth);
    } else {
      t := ScalarOf(u, depth);
    }
  }

  lemma {:induction false} ArrayOf(u: bytes, depth: nat) returns (t: G.Tree)
    requires u != [] && u[0] == OPEN_BRACKET && ValueAt(u, depth).Got?
    ensures G.TreeOk(t) && u == G.Text(t) + ValueAt(u, depth).rest
    ensures G.Meaning(t) == ValueAt(u, depth).v && depth + G.Nesting(t) <= K_MAX_DEPTH
    decreases |u|, 1
  {
    HeadTail(u);
    var y := SkipSpaces(u[1..]);
    var gap := Skipped(u[1..]);
    ArrayStep(u[1..], depth);
    if y[0] == CLOSE_BRACKET {
      t := G.TArray(gap, []);
      HeadTail(y);
    } else {
      var xs := ElementsOf(y, depth + 1, []);
      t := G.TArray([], WiderItems(gap, xs));
      WiderItemsAre(gap, xs);
      Two(gap, G.ItemsText(xs), [CLOSE_BRACKET] + ValueAt(u, depth).rest);
      assert [] + G.Meanings(xs) == G.Meanings(xs);
    }
    ArrayShape(t, ValueAt(u, depth).rest);
  }

  lemma {:induction false} ItemOf(s: bytes, depth: nat, acc: seq<Json>) returns (x: G.Item, y: bytes)
    requires Elements(s, depth, acc).Got? && depth <= K_MAX_DEPTH
    ensures G.ItemOk(x) && s == G.ItemText(x) + y && depth + G.Nesting(x.value) <= K_MAX_DEPTH
    ensures y != [] && |y| <= |s| && (y[0] == CLOSE_BRACKET || y[0] == COMMA)
    ensures var acc' := acc + [G.Meaning(x.value)];
            Elements(s, depth, acc) ==
            if y[0] == CLOSE_BRACKET then Got(JArr(acc'), y[1..])
            else if SkipSpaces(y[1..]) == [] then Fail
            else Elements(SkipSpaces(y[1..]), depth, acc')
    decreases |s|, 3
  {
    var gap, t := ValueOf(s, depth);
    var rest := Value(s, depth).rest;
    var after := Skipped(rest);
    y := SkipSpaces(rest);
    x := G.Item(gap, t, after);
    ItemShape(x, y);
  }

  lemma {:induction false} ItemsCons(x: G.Item, gap: bytes, ys: seq<G.Item>, rest: bytes) returns (xs: seq<G.Item>)
    requires G.ItemOk(x) && Spaces(gap) && ys != [] && forall i | 0 <= i < |ys| :: G.ItemOk(ys[i])
    ensures xs != [] && forall i | 0 <= i < |xs| :: G.ItemOk(xs[i])
    ensures G.ItemsText(xs) + ([CLOSE_BRACKET] + rest) ==
            G.ItemText(x) + ([COMMA] + (gap + (G.ItemsText(ys) + ([CLOSE_BRACKET] + rest))))
    ensures G.Meanings(xs) == [G.Meaning(x.value)] + G.Meanings(ys)
    ensures G.ItemsNesting(xs) == G.Max(G.Nesting(x.value), G.ItemsNesting(ys))
  {
    var more := WiderItems(gap, ys);
    WiderItemsAre(gap, ys);
    xs := [x] + more;
    assert xs[1..] == more;
    Two(gap, G.ItemsText(ys), [CLOSE_BRACKET] + rest);
    ItemsShapeOf(xs, rest);
  }

  lemma {:induction false} ElementsOf(s: bytes, depth: nat, acc: seq<Json>) returns (xs: seq<G.Item>)
    requires Elements(s, depth, acc).Got? && depth <= K_MAX_DEPTH
    ensures xs != [] && (forall i | 0 <= i < |xs| :: G.ItemOk(xs[i]))
    ensures s == G.ItemsText(xs) + ([CLOSE_BRACKET] + Elements(s, depth, acc).rest)
    ensures Elements(s, depth, acc).v == JArr(acc + G.Meanings(xs)) && depth + G.ItemsNesting(xs) <= K_MAX_DEPTH
    decreases |s|, 4
  {
    var x, y := ItemOf(s, depth, acc);
    var v, rest := G.Meaning(x.value), Elements(s, depth, acc).rest;
    HeadTail(y);
    if y[0] == CLOSE_BRACKET {
      xs := [x];
      LastItem(x, acc);
      ItemsShapeOf(xs, rest);
    } else {
      var ys := ElementsOf(SkipSpaces(y[1..]), depth, acc + [v]);
      var gap := Skipped(y[1..]);
      xs := ItemsCons(x, gap, ys, rest);
      Regrouped(acc, v, G.Meanings(ys));
    }
  }

  lemma {:induction false} LastItem(x: G.Item, acc: seq<Json>)
    ensures acc + G.Meanings([x]) == acc + [G.Meaning(x.value)] && G.ItemsNesting([x]) == G.Nesting(x.value)
  {
    assert [x][1..] == [];
  }

  lemma {:induction false} ItemsShapeOf(xs: seq<G.Item>, rest: bytes)
    requires xs != []
    ensures G.ItemsText(xs) + ([CLOSE_BRACKET] + rest) == G.ItemText(xs[0]) + BehindItem(xs, CLOSE_BRACKET, rest)
  {
    ItemsShape(xs, CLOSE_BRACKET, rest);
    ItemShape(xs[0], BehindItem(xs, CLOSE_BRACKET, rest));
  }

  lemma {:induction false} ObjectOf(u: bytes, depth: nat) returns (t: G.Tree)
    requires u != [] && u[0] == OPEN_BRACE && ValueAt(u, depth).Got?
    ensures G.TreeOk(t) && u == G.Text(t) + ValueAt(u, depth).rest
    ensures G.Meaning(t) == ValueAt(u, depth).v && depth + G.Nesting(t) <= K_MAX_DEPTH
    decreases |u|, 1
  {
    HeadTail(u);
    var y := SkipSpaces(u[1..]);
    var gap := Skipped(u[1..]);
    ObjectStep(u[1..], depth);
    if y[0] == CLOSE_BRACE {
      t := G.TObject(gap, []);
      HeadTail(y);
    } else {
      var xs := MembersOf(y, depth + 1, []);
      t := G.TObject([], WiderFields(gap, xs));
      WiderFieldsAre(gap, xs, []);
      Two(gap, G.FieldsText(xs), [CLOSE_BRACE] + ValueAt(u, depth).rest);
    }
    ObjectShape(t, ValueAt(u, depth).rest);
  }

  lemma {:induction false} FieldOf(s: bytes, depth: nat, acc: seq<Member>) returns (x: G.Field, w: bytes)
    requires s != [] && Members(s, depth, acc).Got? && depth <= K_MAX_DEPTH
    ensures G.FieldOk(x) && s == G.FieldText(x) + w && depth + G.Nesting(x.value.value) <= K_MAX_DEPTH
    ensures w != [] && |w| <= |s| && (w[0] == CLOSE_BRACE || w[0] == COMMA)
    ensures var acc' := Put(acc, G.LettersBytes(x.key), G.Meaning(x.value.value));
            Members(s, depth, acc) ==
            if w[0] == CLOSE_BRACE then Got(JObj(acc'), w[1..])
            else if SkipSpaces(w[1..]) == [] then Fail
            else Members(SkipSpaces(w[1..]), depth, acc')
    decreases |s|, 2
  {
    var key := StringOf(s);
    var rest := StringFrom(s[1..], []).rest;
    var between := Skipped(rest);
    var y := SkipSpaces(rest);
    HeadTail(y);
    var gap, t := ValueOf(y[1..], depth);
    var rest' := Value(y[1..], depth).rest;
    var after := Skipped(rest');
    w := SkipSpaces(rest');
    x := G.Field([], key, between, G.Item(gap, t, after));
    FieldAhead(x, w);
  }

  lemma {:induction false} FieldAhead(x: G.Field, w: bytes)
    requires x.before == []
    ensures G.FieldText(x) + w ==
            G.StringText(x.key) +
            (x.between + ([COLON] + (x.value.before + (G.Text(x.value.value) + (x.value.after + w)))))
  {
    Brackets();
    var item := G.ItemText(x.value) + w;
    ItemShape(x.value, w);
    assert [] + G.StringText(x.key) == G.StringText(x.key);
    Two(G.StringText(x.key) + x.between + [COLON], G.ItemText(x.value), w);
    Two(G.StringText(x.key) + x.between, [COLON], item);
    Two(G.StringText(x.key), x.between, [COLON] + item);
  }

  lemma {:induction false} FieldsCons(x: G.Field, gap: bytes, ys: seq<G.Field>, acc: seq<Member>, rest: bytes)
    returns (xs: seq<G.Field>)
    requires G.FieldOk(x) && Spaces(gap) && ys != [] && forall i | 0 <= i < |ys| :: G.FieldOk(ys[i])
    ensures xs != [] && forall i | 0 <= i < |xs| :: G.FieldOk(xs[i])
    ensures G.FieldsText(xs) + ([CLOSE_BRACE] + rest) ==
            G.FieldText(x) + ([COMMA] + (gap + (G.FieldsText(ys) + ([CLOSE_BRACE] + rest))))
    ensures G.Assigned(xs, acc) == G.Assigned(ys, Put(acc, G.LettersBytes(x.key), G.Meaning(x.value.value)))
    ensures G.FieldsNesting(xs) == G.Max(G.Nesting(x.value.value), G.FieldsNesting(ys))
  {
    var more := WiderFields(gap, ys);
    WiderFieldsAre(gap, ys, Put(acc, G.LettersBytes(x.key), G.Meaning(x.value.value)));
    xs := [x] + more;
    assert xs[1..] == more;
    Two(gap, G.FieldsText(ys), [CLOSE_BRACE] + rest);
    FieldsShape(xs, rest);
  }

  lemma {:induction false} LastField(x: G.Field, acc: seq<Member>)
    ensures G.Assigned([x], acc) == Put(acc, G.LettersBytes(x.key), G.Meaning(x.value.value))
    ensures G.FieldsNesting([x]) == G.Nesting(x.value.value)
  {
    assert [x][1..] == [];
  }

  lemma {:induction false} MembersOf(s: bytes, depth: nat, acc: seq<Member>) returns (xs: seq<G.Field>)
    requires s != [] && Members(s, depth, acc).Got? && depth <= K_MAX_DEPTH
    ensures xs != [] && (forall i | 0 <= i < |xs| :: G.FieldOk(xs[i]))
    ensures s == G.FieldsText(xs) + ([CLOSE_BRACE] + Members(s, depth, acc).rest)
    ensures Members(s, depth, acc).v == JObj(G.Assigned(xs, acc)) && depth + G.FieldsNesting(xs) <= K_MAX_DEPTH
    decreases |s|, 3
  {
    var x, w := FieldOf(s, depth, acc);
    var rest := Members(s, depth, acc).rest;
    HeadTail(w);
    if w[0] == CLOSE_BRACE {
      xs := [x];
      LastField(x, acc);
      FieldsShape(xs, rest);
    } else {
      var ys := MembersOf(SkipSpaces(w[1..]), depth, Put(acc, G.LettersBytes(x.key), G.Meaning(x.value.value)));
      var gap := Skipped(w[1..]);
      xs := FieldsCons(x, gap, ys, acc, rest);
    }
  }

  // ---------------------------------------------------------------- whole documents

  /** The parser accepts a document if and only if it is a text of the grammar, nested at most 512 deep,
      and then it gives the value that the text stands for. */
  lemma {:induction false} DocumentExact(s: bytes, v: Json)
    ensures Document(s) == Some(v) <==> G.Denotes(s, v)
  {
    if Document(s) == Some(v) {
      var before, t := ValueOf(s, 0);
      var after := Skipped(Value(s, 0).rest);
      assert after + [] == after;
      Two(before, G.Text(t), after);
      assert G.IsText(s, before, t, after);
    }
    forall before, t, after | G.IsText(s, before, t, after) && G.Meaning(t) == v ensures Document(s) == Some(v) {
      DocumentRead(s, before, t, after);
    }
  }

  lemma {:induction false} DocumentRead(s: bytes, before: bytes, t: G.Tree, after: bytes)
    requires G.IsText(s, before, t, after)
    ensures Document(s) == Some(G.Meaning(t))
  {
    Two(before, G.Text(t), after);
    EndStops(after);
    ValueRead(t, 0, before, after);
    SkipOver(after, []);
    assert after + [] == after;
  }

  /** The value that was written last for a key. */
  function LastWritten(xs: seq<G.Field>, key: bytes): Option<Json> {
    if xs == [] then None
    else if LastWritten(xs[1..], key).Some? then LastWritten(xs[1..], key)
    else if G.LettersBytes(xs[0].key) == key then Some(G.Meaning(xs[0].value.value))
    else None
  }

  /** The members of an object are in the order of their keys, and each has the value written last. */
  lemma {:induction false} LastCounts(xs: seq<G.Field>, acc: seq<Member>, key: bytes)
    requires Sorted(acc)
    ensures Sorted(G.Assigned(xs, acc))
    ensures Lookup(G.Assigned(xs, acc), key) ==
            if LastWritten(xs, key).Some? then LastWritten(xs, key) else Lookup(acc, key)
    decreases |xs|
  {
    if xs != [] {
      var k, v := G.LettersBytes(xs[0].key), G.Meaning(xs[0].value.value);
      PutSorted(acc, k, v);
      PutLookup(acc, k, v, key);
      LastCounts(xs[1..], Put(acc, k, v), key);
    }
  }
}
