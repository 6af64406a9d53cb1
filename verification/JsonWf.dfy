/** What the JSON parser returns: well-formed values of bounded nesting, and equality of values. */
module JsonWf {
  import opened Bytes
  import opened JsonText
  import opened JsonRound

  // ---------------------------------------------------------------- accepted documents

  lemma {:induction false} ItemsBound(items: seq<Json>, h: nat)
    requires forall i | 0 <= i < |items| :: Height(items[i]) <= h
    ensures ItemsHeight(items) <= h
    decreases |items|
  {
    if items != [] { ItemsBound(items[1..], h); }
  }

  lemma {:induction false} MembersBound(members: seq<Member>, h: nat)
    requires forall i | 0 <= i < |members| :: Height(members[i].value) <= h
    ensures MembersHeight(members) <= h
    decreases |members|
  {
    if members != [] { MembersBound(members[1..], h); }
  }

  /** A value that may stand at this depth. */
  predicate Fits(v: Json, depth: nat) {
    Wf(v) && depth + Height(v) <= K_MAX_DEPTH
  }

  lemma {:induction false} ValueFits(s: bytes, depth: nat)
    requires depth <= K_MAX_DEPTH
    ensures Value(s, depth).Got? ==> Fits(Value(s, depth).v, depth)
    decreases |s|, 1
  {
    var t := SkipSpaces(s);
    if t != [] && (t[0] == OPEN_BRACKET || t[0] == OPEN_BRACE) {
      var u := SkipSpaces(t[1..]);
      if depth < K_MAX_DEPTH && u != [] {
        if t[0] == OPEN_BRACKET {
          ElementsFit(u, depth + 1, []);
        } else {
          MembersFit(u, depth + 1, []);
        }
      }
    }
  }

  lemma {:induction false} ElementsFit(s: bytes, depth: nat, acc: seq<Json>)
    requires 0 < depth <= K_MAX_DEPTH && forall i | 0 <= i < |acc| :: Fits(acc[i], depth)
    ensures Elements(s, depth, acc).Got? ==> Fits(Elements(s, depth, acc).v, depth - 1)
    decreases |s|, 2
  {
    ValueFits(s, depth);
    if Value(s, depth).Got? {
      var acc', t := acc + [Value(s, depth).v], SkipSpaces(Value(s, depth).rest);
      ItemsBound(acc', K_MAX_DEPTH - depth);
      if t != [] && t[0] == COMMA {
        ElementsFit(SkipSpaces(t[1..]), depth, acc');
      }
    }
  }

  ghost predicate MembersOk(ms: seq<Member>, depth: nat) {
    Sorted(ms) && forall i | 0 <= i < |ms| :: Fits(ms[i].value, depth)
  }

  lemma {:induction false} PutOk(ms: seq<Member>, key: bytes, v: Json, depth: nat)
    requires MembersOk(ms, depth) && Fits(v, depth) && 0 < depth
    ensures MembersOk(Put(ms, key, v), depth) && Fits(JObj(Put(ms, key, v)), depth - 1)
  {
    PutSorted(ms, key, v);
    var put := Put(ms, key, v);
    forall i | 0 <= i < |put| ensures Fits(put[i].value, depth) {
      PutFrom(ms, key, v, i);
    }
    MembersBound(put, K_MAX_DEPTH - depth);
  }

  lemma {:induction false} MembersFit(s: bytes, depth: nat, acc: seq<Member>)
    requires s != [] && 0 < depth <= K_MAX_DEPTH && MembersOk(acc, depth)
    ensures Members(s, depth, acc).Got? ==> Fits(Members(s, depth, acc).v, depth - 1)
    decreases |s|, 2
  {
    if s[0] == QUOTE && StringFrom(s[1..], []).Got? {
      var key, t := StringFrom(s[1..], []).v, SkipSpaces(StringFrom(s[1..], []).rest);
      if t != [] && t[0] == COLON && Value(t[1..], depth).Got? {
        ValueFits(t[1..], depth);
        var v, w := Value(t[1..], depth).v, SkipSpaces(Value(t[1..], depth).rest);
        PutOk(acc, key, v, depth);
        if w != [] && w[0] == COMMA && SkipSpaces(w[1..]) != [] {
          MembersFit(SkipSpaces(w[1..]), depth, Put(acc, key, v));
        }
      }
    }
  }

  /** Every accepted document gives a well-formed value nested at most 512 levels deep, so printing
      it and parsing again changes nothing. */
  lemma {:induction false} Reprint(s: bytes)
    requires Document(s).Some? && DoubleFree(Document(s).v)
    ensures Document(Print(Document(s).v)) == Document(s)
  {
    ValueFits(s, 0);
    RoundTrip(Document(s).v);
  }

  // ---------------------------------------------------------------- operator==

  function Find(ms: seq<Member>, key: bytes): (i: int)
    ensures -1 <= i < |ms| && (i >= 0 ==> ms[i].key == key)
    ensures i == -1 ==> forall j | 0 <= j < |ms| :: ms[j].key != key
  {
    if ms == [] then -1 else if ms[0].key == key then 0 else var i := Find(ms[1..], key); if i < 0 then -1 else i + 1
  }

  /** operator==, which looks each key of one object up in the other; `dbl` is what strtod makes of the
      text of a number. */
  predicate Equal(dbl: bytes -> real, a: Json, b: Json)
    decreases a
  {
    match (a, b)
    case (JNull, JNull) => true
    case (JBool(x), JBool(y)) => x == y
    case (JInt(x), JInt(y)) => x == y
    case (JReal(x), JReal(y)) => dbl(x) == dbl(y)
    case (JStr(x), JStr(y)) => x == y
    case (JArr(x), JArr(y)) => |x| == |y| && forall i | 0 <= i < |x| :: Equal(dbl, x[i], y[i])
    case (JObj(x), JObj(y)) =>
      |x| == |y| &&
      forall i | 0 <= i < |x| :: Find(y, x[i].key) >= 0 && Equal(dbl, x[i].value, y[Find(y, x[i].key)].value)
    case _ => false
  }

  /** The same values at the same places, with doubles that are equal as numbers. */
  predicate Alike(dbl: bytes -> real, a: Json, b: Json)
    decreases a
  {
    match (a, b)
    case (JReal(x), JReal(y)) => dbl(x) == dbl(y)
    case (JArr(x), JArr(y)) => |x| == |y| && forall i | 0 <= i < |x| :: Alike(dbl, x[i], y[i])
    case (JObj(x), JObj(y)) =>
      |x| == |y| && forall i | 0 <= i < |x| :: x[i].key == y[i].key && Alike(dbl, x[i].value, y[i].value)
    case _ => a == b
  }

  /** Keys that all occur in an equally long sorted list occur there at the same places. */
  lemma {:induction false} SamePlaces(x: seq<Member>, y: seq<Member>, f: seq<int>)
    requires Sorted(x) && Sorted(y) && |x| == |y| == |f|
    requires forall i | 0 <= i < |f| :: 0 <= f[i] < |y| && y[f[i]].key == x[i].key
    ensures forall i | 0 <= i < |f| :: f[i] == i
  {
    forall i, j | 0 <= i < j < |f| ensures f[i] < f[j] {
      assert Less(x[i].key, x[j].key);
      LessOnce(x[i].key, x[j].key);
    }
    forall i | 0 <= i < |f| ensures f[i] == i {
      Climbs(f, 0, i);
      Climbs(f, i, |f| - 1);
    }
  }

  lemma {:induction false} Climbs(f: seq<int>, i: int, j: int)
    requires (forall a, b | 0 <= a < b < |f| :: f[a] < f[b]) && 0 <= i <= j < |f|
    ensures f[i] + (j - i) <= f[j]
    decreases j - i
  {
    if i < j { Climbs(f, i, j - 1); }
  }

  /** operator== is equality of values, and of everything in them but the spelling of doubles. */
  lemma {:induction false} EqualIs(dbl: bytes -> real, a: Json, b: Json)
    requires Wf(a) && Wf(b)
    ensures Equal(dbl, a, b) <==> Alike(dbl, a, b)
    ensures DoubleFree(a) ==> (Equal(dbl, a, b) <==> a == b)
  {
    EqualAlike(dbl, a, b);
    if DoubleFree(a) { AlikeIs(dbl, a, b); }
  }

  lemma {:induction false} AlikeIs(dbl: bytes -> real, a: Json, b: Json)
    requires DoubleFree(a)
    ensures Alike(dbl, a, b) <==> a == b
    decreases a
  {
    if a.JArr? && b.JArr? && |a.items| == |b.items| {
      forall i | 0 <= i < |a.items| ensures Alike(dbl, a.items[i], b.items[i]) <==> a.items[i] == b.items[i] {
        AlikeIs(dbl, a.items[i], b.items[i]);
      }
      if Alike(dbl, a, b) { assert a.items == b.items; }
    } else if a.JObj? && b.JObj? && |a.members| == |b.members| {
      var x, y := a.members, b.members;
      forall i | 0 <= i < |x| ensures Alike(dbl, x[i].value, y[i].value) <==> x[i].value == y[i].value {
        AlikeIs(dbl, x[i].value, y[i].value);
      }
      if Alike(dbl, a, b) { assert x == y; }
    }
  }

  lemma {:induction false} EqualAlike(dbl: bytes -> real, a: Json, b: Json)
    requires Wf(a) && Wf(b)
    ensures Equal(dbl, a, b) <==> Alike(dbl, a, b)
    decreases a
  {
    if a.JArr? && b.JArr? && |a.items| == |b.items| {
      forall i | 0 <= i < |a.items| ensures Equal(dbl, a.items[i], b.items[i]) <==> Alike(dbl, a.items[i], b.items[i]) {
        EqualAlike(dbl, a.items[i], b.items[i]);
      }
    } else if a.JObj? && b.JObj? && |a.members| == |b.members| {
      EqualObjects(dbl, a, b);
    }
  }

  lemma {:induction false} FindHere(y: seq<Member>, i: int)
    requires Sorted(y) && 0 <= i < |y|
    ensures Find(y, y[i].key) == i
  {
    var j := Find(y, y[i].key);
    assert j >= 0;
    LessOnce(y[i].key, y[j].key);
  }

  lemma {:induction false} EqualObjects(dbl: bytes -> real, a: Json, b: Json)
    requires a.JObj? && b.JObj? && |a.members| == |b.members| && Wf(a) && Wf(b)
    ensures Equal(dbl, a, b) <==> Alike(dbl, a, b)
    decreases a, 0
  {
    var x, y := a.members, b.members;
    if Alike(dbl, a, b) {
      forall i | 0 <= i < |x| ensures Find(y, x[i].key) == i && Equal(dbl, x[i].value, y[i].value) {
        FindHere(y, i);
        EqualAlike(dbl, x[i].value, y[i].value);
      }
    }
    if Equal(dbl, a, b) {
      var f := seq(|x|, i requires 0 <= i < |x| => Find(y, x[i].key));
      SamePlaces(x, y, f);
      forall i | 0 <= i < |x| ensures x[i].key == y[i].key && Alike(dbl, x[i].value, y[i].value) {
        assert f[i] == i;
        EqualAlike(dbl, x[i].value, y[i].value);
      }
    }
  }
}
