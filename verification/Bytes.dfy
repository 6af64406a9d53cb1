/** Byte strings, and maps with byte strings as keys in the order of std::map<std::string, V>. */
module Bytes {
  type byte = b: int | 0 <= b < 256
  type bytes = seq<byte>

  datatype Option<T> = None | Some(v: T)

  /** What is read from the front of the input, and the input behind it; or an error. */
  datatype Res<T> = Fail | Got(v: T, rest: bytes)

  const TAB: byte := 0x09
  const NEWLINE: byte := 0x0A
  const RETURN: byte := 0x0D
  const SPACE: byte := 0x20
  const QUOTE: byte := 0x22

  predicate IsSpace(b: byte) {
    b == SPACE || b == RETURN || b == NEWLINE || b == TAB
  }

  function SkipSpaces(s: bytes): (r: bytes)
    ensures |r| <= |s| && (r != [] ==> !IsSpace(r[0]))
  {
    if s != [] && IsSpace(s[0]) then SkipSpaces(s[1..]) else s
  }

  predicate StartsWith(s: bytes, t: bytes) {
    |t| <= |s| && s[..|t|] == t
  }

  // ---------------------------------------------------------------- UTF-8

  predicate IsHigh(u: int) {
    0xD800 <= u <= 0xDBFF
  }

  predicate IsLow(u: int) {
    0xDC00 <= u <= 0xDFFF
  }

  predicate IsScalar(cp: int) {
    0 <= cp <= 0x10FFFF && !IsHigh(cp) && !IsLow(cp)
  }

  function Utf8(cp: int): bytes
    requires IsScalar(cp)
  {
    if cp < 0x80 then [cp]
    else if cp < 0x800 then [0xC0 + cp / 0x40, 0x80 + cp % 0x40]
    else if cp < 0x10000 then [0xE0 + cp / 0x1000, 0x80 + cp / 0x40 % 0x40, 0x80 + cp % 0x40]
    else [0xF0 + cp / 0x40000, 0x80 + cp / 0x1000 % 0x40, 0x80 + cp / 0x40 % 0x40, 0x80 + cp % 0x40]
  }

  // ---------------------------------------------------------------- positions

  lemma {:induction false} NoSpaces(s: bytes)
    requires s != [] && !IsSpace(s[0])
    ensures SkipSpaces(s) == s
  {
  }

  lemma {:induction false} Two(a: bytes, b: bytes, c: bytes)
    ensures a + b + c == a + (b + c)
  {
  }

  lemma {:induction false} Cons(b: byte, s: bytes)
    ensures ([b] + s)[0] == b && ([b] + s)[1..] == s
  {
  }

  lemma {:induction false} Suffix(s: bytes, i: nat)
    requires i < |s|
    ensures s[i..] != [] && s[i..][0] == s[i] && s[i..][1..] == s[i + 1..]
  {
  }

  lemma {:induction false} SuffixDrop(s: bytes, i: nat, n: nat)
    requires i + n <= |s|
    ensures s[i..][n..] == s[i + n..]
  {
  }

  // ---------------------------------------------------------------- the order of keys

  /** Bytes compare as unsigned numbers. */
  predicate Less(a: bytes, b: bytes) {
    b != [] && (a == [] || a[0] < b[0] || (a[0] == b[0] && Less(a[1..], b[1..])))
  }

  lemma {:induction false} LessTrans(a: bytes, b: bytes, c: bytes)
    requires Less(a, b) && Less(b, c)
    ensures Less(a, c)
    decreases |a|
  {
    if a != [] && a[0] == b[0] == c[0] { LessTrans(a[1..], b[1..], c[1..]); }
  }

  lemma {:induction false} LessOnce(a: bytes, b: bytes)
    ensures !(Less(a, b) && Less(b, a)) && !Less(a, a)
    ensures Less(a, b) || a == b || Less(b, a)
    decreases |a|
  {
    if a != [] {
      LessOnce(a[1..], if b == [] then [] else b[1..]);
      LessOnce(a[1..], a[1..]);
      if b != [] && a[1..] == b[1..] && a[0] == b[0] { assert a == [a[0]] + a[1..] == b; }
    }
  }

  // ---------------------------------------------------------------- maps

  datatype Entry<V> = Entry(key: bytes, value: V)

  predicate Sorted<V>(m: seq<Entry<V>>) {
    forall i, j {:trigger Less(m[i].key, m[j].key)} | 0 <= i < j < |m| :: Less(m[i].key, m[j].key)
  }

  /** m[key] = value */
  function Put<V>(m: seq<Entry<V>>, key: bytes, value: V): seq<Entry<V>> {
    if m == [] || Less(key, m[0].key) then [Entry(key, value)] + m
    else if m[0].key == key then [Entry(key, value)] + m[1..]
    else [m[0]] + Put(m[1..], key, value)
  }

  function Lookup<V>(m: seq<Entry<V>>, key: bytes): Option<V> {
    if m == [] then None else if m[0].key == key then Some(m[0].value) else Lookup(m[1..], key)
  }

  /** An entry of the result is the new one or an old one. */
  lemma {:induction false} PutFrom<V>(m: seq<Entry<V>>, key: bytes, v: V, i: int)
    requires 0 <= i < |Put(m, key, v)|
    ensures Put(m, key, v)[i] == Entry(key, v) || Put(m, key, v)[i] in m
    decreases |m|
  {
    if m != [] && !Less(key, m[0].key) && m[0].key != key && i > 0 {
      PutFrom(m[1..], key, v, i - 1);
    }
  }

  /** Keys in order are appended. */
  lemma {:induction false} PutLast<V>(m: seq<Entry<V>>, key: bytes, v: V)
    requires forall i | 0 <= i < |m| :: Less(m[i].key, key)
    ensures Put(m, key, v) == m + [Entry(key, v)]
    decreases |m|
  {
    if m != [] {
      LessOnce(m[0].key, key);
      PutLast(m[1..], key, v);
    }
  }

  lemma {:induction false} PutNext<V>(acc: seq<Entry<V>>, m: seq<Entry<V>>)
    requires m != [] && Sorted(acc + m)
    ensures Put(acc, m[0].key, m[0].value) == acc + [m[0]]
  {
    forall i | 0 <= i < |acc| ensures Less(acc[i].key, m[0].key) {
      assert (acc + m)[i] == acc[i] && (acc + m)[|acc|] == m[0];
    }
    PutLast(acc, m[0].key, m[0].value);
  }

  lemma {:induction false} Regroup<T>(acc: seq<T>, m: seq<T>)
    requires m != []
    ensures acc + [m[0]] + m[1..] == acc + m
    ensures |m| == 1 ==> m[1..] == [] && acc + [m[0]] == acc + m
  {
  }

  lemma {:induction false} SortedTail<V>(m: seq<Entry<V>>)
    requires Sorted(m) && m != []
    ensures Sorted(m[1..]) && forall x | x in m[1..] :: Less(m[0].key, x.key)
  {
    forall i, j | 0 <= i < j < |m[1..]| ensures Less(m[1..][i].key, m[1..][j].key) {
      assert Less(m[i + 1].key, m[j + 1].key);
    }
    forall x | x in m[1..] ensures Less(m[0].key, x.key) {
      var j :| 0 <= j < |m[1..]| && m[1..][j] == x;
      assert Less(m[0].key, m[j + 1].key);
    }
  }

  lemma {:induction false} SortedCons<V>(e: Entry<V>, m: seq<Entry<V>>)
    requires Sorted(m) && forall x | x in m :: Less(e.key, x.key)
    ensures Sorted([e] + m)
  {
    var s := [e] + m;
    forall i, j | 0 <= i < j < |s| ensures Less(s[i].key, s[j].key) {
      if i > 0 { assert Less(m[i - 1].key, m[j - 1].key); }
    }
  }

  /** Assigning to a key keeps the entries in order. */
  lemma {:induction false} PutSorted<V>(m: seq<Entry<V>>, key: bytes, v: V)
    requires Sorted(m)
    ensures Sorted(Put(m, key, v))
    decreases |m|
  {
    if m == [] {
    } else if Less(key, m[0].key) {
      SortedTail(m);
      forall x | x in m ensures Less(key, x.key) {
        if x != m[0] { assert x in m[1..]; LessTrans(key, m[0].key, x.key); }
      }
      SortedCons(Entry(key, v), m);
    } else if m[0].key == key {
      SortedTail(m);
      SortedCons(Entry(key, v), m[1..]);
    } else {
      SortedTail(m);
      LessOnce(key, m[0].key);
      PutSorted(m[1..], key, v);
      var put := Put(m[1..], key, v);
      forall x | x in put ensures Less(m[0].key, x.key) {
        var i :| 0 <= i < |put| && put[i] == x;
        PutFrom(m[1..], key, v, i);
      }
      SortedCons(m[0], put);
    }
  }

  /** The last assignment to a key counts, and other keys are not touched. */
  lemma {:induction false} PutLookup<V>(m: seq<Entry<V>>, key: bytes, v: V, k: bytes)
    requires Sorted(m)
    ensures Lookup(Put(m, key, v), k) == if k == key then Some(v) else Lookup(m, k)
    decreases |m|
  {
    if m != [] {
      SortedTail(m);
      if Less(key, m[0].key) {
        assert ([Entry(key, v)] + m)[1..] == m;
      } else if m[0].key == key {
        assert ([Entry(key, v)] + m[1..])[1..] == m[1..];
      } else {
        PutLookup(m[1..], key, v, k);
        assert ([m[0]] + Put(m[1..], key, v))[1..] == Put(m[1..], key, v);
      }
    }
  }
}
