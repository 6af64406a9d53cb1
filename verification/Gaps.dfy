/** Skipping spaces, and the spaces that are skipped. */
module Gaps {
  import opened Bytes
  import opened Notation

  lemma {:induction false} SpaceIs(b: byte)
    ensures IsSpace(b) <==> IsBlank(b)
  {
    var s := Ascii(" \t\r\n");
    assert s[0] == SPACE && s[1] == TAB && s[2] == RETURN && s[3] == NEWLINE;
  }

  lemma {:induction false} SkipOver(gap: bytes, rest: bytes)
    requires Spaces(gap)
    ensures SkipSpaces(gap + rest) == SkipSpaces(rest)
    decreases |gap|
  {
    if gap == [] {
      assert gap + rest == rest;
    } else {
      SpaceIs(gap[0]);
      assert (gap + rest)[1..] == gap[1..] + rest;
      SkipOver(gap[1..], rest);
    }
  }

  lemma {:induction false} Skipped(s: bytes) returns (gap: bytes)
    ensures Spaces(gap) && s == gap + SkipSpaces(s)
    decreases |s|
  {
    if s != [] && IsSpace(s[0]) {
      SpaceIs(s[0]);
      var more := Skipped(s[1..]);
      gap := [s[0]] + more;
    } else {
      gap := [];
    }
  }

  lemma {:induction false} SkipTo(gap: bytes, x: bytes)
    requires Spaces(gap) && x != [] && !IsSpace(x[0])
    ensures SkipSpaces(gap + x) == x
  {
    SkipOver(gap, x);
    NoSpaces(x);
  }

  lemma {:induction false} SkipAgain(s: bytes)
    ensures SkipSpaces(SkipSpaces(s)) == SkipSpaces(s)
  {
    if SkipSpaces(s) != [] { NoSpaces(SkipSpaces(s)); }
  }

  lemma {:induction false} BothSpaces(a: bytes, b: bytes)
    requires Spaces(a) && Spaces(b)
    ensures Spaces(a + b)
  {
  }

  lemma {:induction false} HeadTail(s: bytes)
    requires s != []
    ensures s == [s[0]] + s[1..]
  {
  }
}
