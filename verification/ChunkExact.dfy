/** What has been fed to the parser of chunked bodies can be told from where it is, and the other way
    round. */
module ChunkExact {
  import opened Bytes
  import opened Notation
  import opened Chunked

  /** Whole chunks, the size of another one, and some bytes behind it. */
  datatype Progress = Progress(cs: seq<Chunk>, size: bytes, part: bytes)

  predicate AllChunks(cs: seq<Chunk>) {
    forall i | 0 <= i < |cs| :: IsChunk(cs[i])
  }

  /** The bytes that lead to a node. */
  function Fed(node: Node, p: Progress): bytes {
    match node
    case SizeDigit => EncodeAll(p.cs)
    case Size => EncodeAll(p.cs) + p.size
    case SizeAlmostDone => EncodeAll(p.cs) + p.size + Ascii("\r")
    case SpanStart => EncodeAll(p.cs) + p.size + Ascii("\r\n")
    case Consume => EncodeAll(p.cs) + p.size + Ascii("\r\n") + p.part
    case DataAlmostDone => EncodeAll(p.cs) + p.size + Ascii("\r\n") + p.part
    case DataAlmostDone1 => EncodeAll(p.cs) + p.size + Ascii("\r\n") + p.part + Ascii("\r")
    case Trailer => EncodeAll(p.cs) + p.size + Ascii("\r\n") + p.part
    case Extensions => EncodeAll(p.cs) + p.size + Ascii(";") + p.part
    case _ => []
  }

  /** Where the parser is, how many bytes of the chunk are to come, and what on_body got. */
  predicate IsProgress(s: State, p: Progress) {
    && AllChunks(p.cs) && s.error == 0 && 0 <= s.length
    && match s.node
       case SizeDigit => s.length == 0 && s.body == DataOf(p.cs)
       case Size => IsLength(p.size, s.length) && s.body == DataOf(p.cs)
       case SizeAlmostDone => IsLength(p.size, s.length) && s.body == DataOf(p.cs)
       case SpanStart => IsLength(p.size, s.length) && 0 < s.length && s.body == DataOf(p.cs)
       case Consume =>
         IsLength(p.size, |p.part| + s.length) && p.part != [] && 0 < s.length && s.body == DataOf(p.cs) + p.part
       case DataAlmostDone => IsWhole(s, p)
       case DataAlmostDone1 => IsWhole(s, p)
       case Trailer => IsLength(p.size, 0) && s.length == 0 && s.body == DataOf(p.cs)
       case Extensions => IsLength(p.size, s.length) && s.body == DataOf(p.cs)
       case _ => false
  }

  /** All data of the chunk is there. */
  predicate IsWhole(s: State, p: Progress) {
    IsLength(p.size, |p.part|) && p.part != [] && s.length == 0 && s.body == DataOf(p.cs) + p.part
  }

  predicate IsLength(size: bytes, n: int) {
    IsSize(size, n) && n < 0x1_0000_0000_0000_0000
  }

  ghost predicate Explained(s: State, data: bytes) {
    exists p :: IsProgress(s, p) && data == Fed(s.node, p)
  }

  // ---------------------------------------------------------------- from the bytes to the state

  lemma {:induction false} FeedThree(s: State, a: bytes, b: bytes, c: bytes)
    ensures Feed(s, a + b + c) == Feed(Feed(Feed(s, a), b), c)
  {
    FeedBoth(s, a + b, c);
    FeedBoth(s, a, b);
  }

  lemma {:induction false} FeedOne(s: State, b: byte)
    ensures Feed(s, [b]) == Step(s, b)
  {
    assert [b][1..] == [];
  }

  lemma {:induction false} AtSize(cs: seq<Chunk>, size: bytes, n: int)
    requires AllChunks(cs) && IsLength(size, n)
    ensures Feed(AtStart([]), EncodeAll(cs) + size) == State(Size, n, 0, DataOf(cs))
  {
    ChunksDecode(cs, []);
    assert [] + DataOf(cs) == DataOf(cs);
    FeedBoth(AtStart([]), EncodeAll(cs), size);
    SizeExact(DataOf(cs), size, n);
  }

  lemma {:induction false} AtLine(cs: seq<Chunk>, size: bytes, n: int)
    requires AllChunks(cs) && IsLength(size, n) && n >= 0
    ensures Feed(AtStart([]), EncodeAll(cs) + size + Ascii("\r\n")) ==
            State(if n == 0 then Trailer else SpanStart, n, 0, DataOf(cs))
  {
    LineEnd();
    AtSize(cs, size, n);
    FeedBoth(AtStart([]), EncodeAll(cs) + size, [CR, LF]);
    FeedTwo(State(Size, n, 0, DataOf(cs)), CR, LF);
  }

  lemma {:induction false} AtData(cs: seq<Chunk>, size: bytes, part: bytes, left: nat)
    requires AllChunks(cs) && IsLength(size, |part| + left) && part != []
    ensures Feed(AtStart([]), EncodeAll(cs) + size + Ascii("\r\n") + part) ==
            State(if left == 0 then DataAlmostDone else Consume, left, 0, DataOf(cs) + part)
  {
    AtLine(cs, size, |part| + left);
    FeedBoth(AtStart([]), EncodeAll(cs) + size + Ascii("\r\n"), part);
    FeedData(State(SpanStart, |part| + left, 0, DataOf(cs)), part);
  }

  lemma {:induction false} AtSemicolon(cs: seq<Chunk>, size: bytes, n: int, part: bytes)
    requires AllChunks(cs) && IsLength(size, n)
    ensures Feed(AtStart([]), EncodeAll(cs) + size + Ascii(";") + part) == State(Extensions, n, 0, DataOf(cs))
  {
    LineEnd();
    AtSize(cs, size, n);
    FeedThree(AtStart([]), EncodeAll(cs) + size, [SEMICOLON], part);
    FeedOne(State(Size, n, 0, DataOf(cs)), SEMICOLON);
    FeedStopped(State(Extensions, n, 0, DataOf(cs)), part);
  }

  lemma {:induction false} FedSimple(s: State, p: Progress)
    requires IsProgress(s, p) && (s.node.SizeDigit? || s.node.Size? || s.node.SizeAlmostDone? || s.node.SpanStart?)
    ensures Feed(AtStart([]), Fed(s.node, p)) == s
  {
    LineEnd();
    if s.node.SizeDigit? {
      ChunksDecode(p.cs, []);
      assert [] + DataOf(p.cs) == DataOf(p.cs);
    } else if s.node.SpanStart? {
      AtLine(p.cs, p.size, s.length);
    } else {
      AtSize(p.cs, p.size, s.length);
      if s.node.SizeAlmostDone? {
        FeedBoth(AtStart([]), EncodeAll(p.cs) + p.size, [CR]);
        FeedOne(State(Size, s.length, 0, DataOf(p.cs)), CR);
      }
    }
  }

  lemma {:induction false} FedData(s: State, p: Progress)
    requires IsProgress(s, p) && (s.node.Consume? || s.node.DataAlmostDone? || s.node.DataAlmostDone1?)
    ensures Feed(AtStart([]), Fed(s.node, p)) == s
  {
    LineEnd();
    AtData(p.cs, p.size, p.part, s.length);
    if s.node.DataAlmostDone1? {
      FeedBoth(AtStart([]), EncodeAll(p.cs) + p.size + [CR, LF] + p.part, [CR]);
      FeedOne(State(DataAlmostDone, 0, 0, DataOf(p.cs) + p.part), CR);
    }
  }

  lemma {:induction false} FedReaches(s: State, p: Progress)
    requires IsProgress(s, p)
    ensures Feed(AtStart([]), Fed(s.node, p)) == s
  {
    if s.node.Trailer? {
      AtLine(p.cs, p.size, 0);
      FeedBoth(AtStart([]), EncodeAll(p.cs) + p.size + Ascii("\r\n"), p.part);
      FeedStopped(s, p.part);
    } else if s.node.Extensions? {
      AtSemicolon(p.cs, p.size, s.length, p.part);
    } else if s.node.Consume? || s.node.DataAlmostDone? || s.node.DataAlmostDone1? {
      FedData(s, p);
    } else {
      FedSimple(s, p);
    }
  }

  // ---------------------------------------------------------------- from the state to the bytes

  lemma {:induction false} EncodeNext(cs: seq<Chunk>, c: Chunk)
    ensures EncodeAll(cs + [c]) == EncodeAll(cs) + Encode(c) && DataOf(cs + [c]) == DataOf(cs) + c.data
    decreases |cs|
  {
    if cs == [] {
      var one := cs + [c];
      assert one[0] == c && one[1..] == [];
      assert Encode(c) + [] == Encode(c) == [] + Encode(c) && c.data + [] == c.data == [] + c.data;
    } else {
      assert (cs + [c])[1..] == cs[1..] + [c];
      EncodeNext(cs[1..], c);
      Two(Encode(cs[0]), EncodeAll(cs[1..]), Encode(c));
      Two(cs[0].data, DataOf(cs[1..]), c.data);
    }
  }

  lemma {:induction false} SizeGrows(size: bytes, n: int, b: byte)
    requires Numeral(size, 16, n) && n >= 0 && Digit(b) >= 0
    ensures IsSize(size + [b], n * 16 + Digit(b))
  {
    DigitIs(b, Digit(b));
    NumeralAppend(size, b, 16, n, Digit(b));
  }

  /** A digit of the size. */
  lemma {:induction false} AfterDigit(s: State, p: Progress, b: byte) returns (q: Progress)
    requires IsProgress(s, p) && (s.node.SizeDigit? || s.node.Size?) && Digit(b) >= 0 && !Step(s, b).node.Failed?
    ensures IsProgress(Step(s, b), q) && Fed(s.node, p) + [b] == Fed(Step(s, b).node, q)
  {
    MulAddExact(16, s.length, Digit(b));
    var size := if s.node.SizeDigit? then [] else p.size;
    SizeGrows(size, s.length, b);
    q := Progress(p.cs, size + [b], []);
    Two(EncodeAll(p.cs), size, [b]);
    assert EncodeAll(p.cs) + [] == EncodeAll(p.cs);
  }

  /** The line behind the size. */
  lemma {:induction false} AfterSize(s: State, p: Progress, b: byte) returns (q: Progress)
    requires IsProgress(s, p) && (s.node.Size? || s.node.SizeAlmostDone?) && !Step(s, b).node.Failed?
    requires s.node.Size? ==> Digit(b) < 0
    ensures IsProgress(Step(s, b), q) && Fed(s.node, p) + [b] == Fed(Step(s, b).node, q)
  {
    LineEnd();
    q := p.(part := []);
    var front := EncodeAll(p.cs) + p.size;
    if s.node.Size? {
      assert front + [b] + [] == front + [b];
    } else {
      assert front + [CR] + [LF] == front + [CR, LF] == front + [CR, LF] + [];
    }
  }

  /** The data, and the line end behind it. */
  lemma {:induction false} AfterData(s: State, p: Progress, b: byte) returns (q: Progress)
    requires IsProgress(s, p) && (s.node.SpanStart? || s.node.Consume?)
    ensures IsProgress(Step(s, b), q) && Fed(s.node, p) + [b] == Fed(Step(s, b).node, q)
  {
    var part := if s.node.SpanStart? then [] else p.part;
    q := p.(part := part + [b]);
    var front := EncodeAll(p.cs) + p.size + Ascii("\r\n");
    Two(front, part, [b]);
    Two(DataOf(p.cs), part, [b]);
    assert front + [] == front && DataOf(p.cs) + [] == DataOf(p.cs);
  }

  lemma {:induction false} ChunkEnds(p: Progress) returns (q: Progress)
    requires AllChunks(p.cs) && IsLength(p.size, |p.part|) && p.part != []
    ensures AllChunks(q.cs) && DataOf(q.cs) == DataOf(p.cs) + p.part
    ensures EncodeAll(q.cs) == EncodeAll(p.cs) + p.size + Ascii("\r\n") + p.part + Ascii("\r\n")
  {
    var c := Chunk(p.size, p.part);
    assert IsChunk(c);
    q := Progress(p.cs + [c], [], []);
    EncodeNext(p.cs, c);
    var e := Ascii("\r\n");
    Two(EncodeAll(p.cs), p.size + e + p.part, e);
    Two(EncodeAll(p.cs), p.size + e, p.part);
    Two(EncodeAll(p.cs), p.size, e);
  }

  lemma {:induction false} AfterChunk(s: State, p: Progress, b: byte) returns (q: Progress)
    requires IsProgress(s, p) && (s.node.DataAlmostDone? || s.node.DataAlmostDone1?) && !Step(s, b).node.Failed?
    ensures IsProgress(Step(s, b), q) && Fed(s.node, p) + [b] == Fed(Step(s, b).node, q)
  {
    LineEnd();
    if s.node.DataAlmostDone? {
      q := p;
    } else {
      q := ChunkEnds(p);
      var front := EncodeAll(p.cs) + p.size + [CR, LF] + p.part;
      assert front + [CR] + [LF] == front + [CR, LF];
    }
  }

  lemma {:induction false} AfterEnd(s: State, p: Progress, b: byte) returns (q: Progress)
    requires IsProgress(s, p) && (s.node.Trailer? || s.node.Extensions?)
    ensures IsProgress(Step(s, b), q) && Fed(s.node, p) + [b] == Fed(Step(s, b).node, q)
  {
    q := p.(part := p.part + [b]);
    Two(EncodeAll(p.cs) + p.size + (if s.node.Trailer? then Ascii("\r\n") else Ascii(";")), p.part, [b]);
  }

  lemma {:induction false} NextProgress(s: State, p: Progress, b: byte) returns (q: Progress)
    requires IsProgress(s, p) && !Step(s, b).node.Failed?
    ensures IsProgress(Step(s, b), q) && Fed(s.node, p) + [b] == Fed(Step(s, b).node, q)
  {
    if (s.node.SizeDigit? || s.node.Size?) && Digit(b) >= 0 {
      q := AfterDigit(s, p, b);
    } else if s.node.Size? || s.node.SizeAlmostDone? {
      q := AfterSize(s, p, b);
    } else if s.node.SpanStart? || s.node.Consume? {
      q := AfterData(s, p, b);
    } else if s.node.DataAlmostDone? || s.node.DataAlmostDone1? {
      q := AfterChunk(s, p, b);
    } else {
      q := AfterEnd(s, p, b);
    }
  }

  lemma {:induction false} ProgressOf(data: bytes) returns (p: Progress)
    requires !Feed(AtStart([]), data).node.Failed?
    ensures IsProgress(Feed(AtStart([]), data), p) && data == Fed(Feed(AtStart([]), data).node, p)
    decreases |data|
  {
    if data == [] {
      p := Progress([], [], []);
    } else {
      var d, b := data[..|data| - 1], data[|data| - 1];
      assert data == d + [b];
      FeedBoth(AtStart([]), d, [b]);
      var s := Feed(AtStart([]), d);
      FeedOne(s, b);
      var q := ProgressOf(d);
      p := NextProgress(s, q, b);
    }
  }

  /** The framing is exact: a state without error is reached by exactly the bytes that are whole chunks and the
      part of another one that the state tells, or whole chunks, a zero size and what follows it. */
  lemma {:induction false} FramingExact(s: State, data: bytes)
    requires !s.node.Failed?
    ensures Feed(AtStart([]), data) == s <==> Explained(s, data)
  {
    if Feed(AtStart([]), data) == s {
      var p := ProgressOf(data);
    }
    forall p | IsProgress(s, p) && data == Fed(s.node, p) ensures Feed(AtStart([]), data) == s {
      FedReaches(s, p);
    }
  }

  // ---------------------------------------------------------------- errors

  ghost predicate IsHexDigit(b: byte) {
    exists d :: IsDigitOf(b, d)
  }

  /** What a byte has to be to go on from a state. */
  ghost predicate GoesOn(s: State, b: byte) {
    match s.node
    case SizeDigit => IsHexDigit(b)
    case Size => b in Ascii("\r;") || exists d :: IsDigitOf(b, d) && s.length * 16 + d < 0x1_0000_0000_0000_0000
    case SizeAlmostDone => b == '\n' as int
    case DataAlmostDone => b == '\r' as int
    case DataAlmostDone1 => b == '\n' as int
    case _ => true
  }

  /** The error: a missing CR in front of an LF is CR_EXPECTED (25), a bad size INVALID_CHUNK_SIZE (12), and
      another byte in place of a line end STRICT (2). */
  function Reason(node: Node, b: byte): int {
    if b == '\n' as int && (node.Size? || node.DataAlmostDone?) then 25
    else if node.SizeDigit? || node.Size? then 12
    else 2
  }

  lemma {:induction false} LineBytes(b: byte)
    ensures b in Ascii("\r;") <==> b == CR || b == SEMICOLON
    ensures '\n' as int == LF && '\r' as int == CR
  {
    var s := Ascii("\r;");
    assert s[0] == CR && s[1] == SEMICOLON;
  }

  /** Every other byte is rejected, with this error and no more data. */
  lemma {:induction false} RejectedIff(s: State, p: Progress, b: byte)
    requires IsProgress(s, p)
    ensures !GoesOn(s, b) ==> Step(s, b) == State(Failed, 0, Reason(s.node, b), s.body)
    ensures GoesOn(s, b) ==> !Step(s, b).node.Failed?
  {
    LineBytes(b);
    DigitIs(b, Digit(b));
    if Digit(b) >= 0 { MulAddExact(16, s.length, Digit(b)); }
    forall d | IsDigitOf(b, d) ensures d == Digit(b) { DigitIs(b, d); }
  }
}
