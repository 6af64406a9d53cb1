/** Chunked bodies in an HTTP parser that is fed piece by piece (strict mode, callbacks that do not
    fail).  The parser stops where trailers or chunk extensions start. */
module Chunked {
  import opened Bytes
  import opened Notation

  const CR: byte := 0x0D
  const LF: byte := 0x0A
  const SEMICOLON: byte := 0x3B
  const UINT64_MAX := 0xFFFF_FFFF_FFFF_FFFF

  const HPE_STRICT := 0x2
  const HPE_INVALID_CHUNK_SIZE := 0xC
  const HPE_CR_EXPECTED := 0x19

  // ---------------------------------------------------------------- numbers

  function Digit(b: byte): (d: int)
    ensures -1 <= d < 16
  {
    if 0x30 <= b <= 0x39 then b - 0x30
    else if 0x41 <= b <= 0x46 then b - 0x41 + 10
    else if 0x61 <= b <= 0x66 then b - 0x61 + 10
    else -1
  }

  /** llhttp__internal__c_mul_add_content_length (base 16) and _1 (base 10), on 64 bits. */
  function MulAdd(base: int, length: int, digit: int): (r: Option<int>)
    requires base == 10 || base == 16
  {
    if length > UINT64_MAX / base then None
    else if length * base > UINT64_MAX - digit then None
    else Some(length * base + digit)
  }

  function Value(base: int, ds: seq<int>): int {
    if ds == [] then 0 else Value(base, ds[..|ds| - 1]) * base + ds[|ds| - 1]
  }

  predicate AreDigits(base: int, ds: seq<int>) {
    forall i | 0 <= i < |ds| :: 0 <= ds[i] < base
  }

  /** The digits one by one, from a length read so far. */
  function Accumulate(base: int, length: int, ds: seq<int>): Option<int>
    requires base == 10 || base == 16
    decreases |ds|
  {
    if ds == [] then Some(length)
    else
      match MulAdd(base, length, ds[0])
      case None => None
      case Some(n) => Accumulate(base, n, ds[1..])
  }

  lemma {:induction false} MulAddExact(base: int, length: int, digit: int)
    requires (base == 10 || base == 16) && 0 <= length && 0 <= digit < base
    ensures MulAdd(base, length, digit) == if length * base + digit <= UINT64_MAX then Some(length * base + digit)
            else None
  {
  }

  function Horner(base: int, length: int, ds: seq<int>): int
    decreases |ds|
  {
    if ds == [] then length else Horner(base, length * base + ds[0], ds[1..])
  }

  lemma {:induction false} HornerGrows(base: int, length: int, ds: seq<int>)
    requires base >= 1 && AreDigits(base, ds) && length >= 0
    ensures Horner(base, length, ds) >= length
    decreases |ds|
  {
    if ds != [] {
      assert length * base >= length;
      HornerGrows(base, length * base + ds[0], ds[1..]);
    }
  }

  lemma {:induction false} HornerEnd(base: int, length: int, ds: seq<int>, d: int)
    ensures Horner(base, length, ds + [d]) == Horner(base, length, ds) * base + d
    decreases |ds|
  {
    if ds == [] {
      assert (ds + [d])[1..] == [];
    } else {
      assert (ds + [d])[1..] == ds[1..] + [d];
      HornerEnd(base, length * base + ds[0], ds[1..], d);
    }
  }

  lemma {:induction false} HornerValue(base: int, ds: seq<int>)
    ensures Horner(base, 0, ds) == Value(base, ds)
    decreases |ds|
  {
    if ds != [] {
      var n := |ds| - 1;
      assert ds == ds[..n] + [ds[n]];
      HornerEnd(base, 0, ds[..n], ds[n]);
      HornerValue(base, ds[..n]);
    }
  }

  lemma {:induction false} AccumulateFrom(base: int, length: int, ds: seq<int>)
    requires (base == 10 || base == 16) && AreDigits(base, ds) && 0 <= length <= UINT64_MAX
    ensures Accumulate(base, length, ds) == if Horner(base, length, ds) <= UINT64_MAX
            then Some(Horner(base, length, ds)) else None
    decreases |ds|
  {
    if ds != [] {
      MulAddExact(base, length, ds[0]);
      if length * base + ds[0] <= UINT64_MAX {
        AccumulateFrom(base, length * base + ds[0], ds[1..]);
      } else {
        HornerGrows(base, length * base + ds[0], ds[1..]);
      }
    }
  }

  /** A run of digits of any length is read exactly: it is rejected if and only if its value needs
      more than 64 bits. */
  lemma {:induction false} AccumulateExact(base: int, ds: seq<int>)
    requires (base == 10 || base == 16) && AreDigits(base, ds)
    ensures Accumulate(base, 0, ds) == if Value(base, ds) <= UINT64_MAX then Some(Value(base, ds)) else None
  {
    AccumulateFrom(base, 0, ds);
    HornerValue(base, ds);
  }

  // ---------------------------------------------------------------- one byte at a time

  datatype Node =
    | SizeDigit | Size | SizeOtherwise | SizeAlmostDone   // the line with the size
    | SpanStart | Consume                                 // the data
    | DataAlmostDone | DataAlmostDone1                    // CR LF behind it
    | Trailer | Extensions                                // where this model stops
    | Failed

  /** What the parser has read: where it is, the length it still expects, its error, and all bytes
      given to on_body. */
  datatype State = State(node: Node, length: int, error: int, body: bytes)

  function Fails(s: State, code: int): State {
    State(Failed, 0, code, s.body)
  }

  function SizeStep(s: State, d: int): State {
    match MulAdd(16, s.length, d)
    case None => Fails(s, HPE_INVALID_CHUNK_SIZE)
    case Some(n) => s.(node := Size, length := n)
  }

  function OtherwiseStep(s: State, b: byte): State {
    if b == LF then Fails(s, HPE_CR_EXPECTED)
    else if b == CR then s.(node := SizeAlmostDone)
    else if b == SEMICOLON then s.(node := Extensions)
    else Fails(s, HPE_INVALID_CHUNK_SIZE)
  }

  function Step(s: State, b: byte): State {
    match s.node
    case SizeDigit => if Digit(b) >= 0 then SizeStep(s, Digit(b)) else Fails(s, HPE_INVALID_CHUNK_SIZE)
    case Size => if Digit(b) >= 0 then SizeStep(s, Digit(b)) else OtherwiseStep(s, b)
    case SizeOtherwise => OtherwiseStep(s, b)
    case SizeAlmostDone =>
      if b != LF then Fails(s, HPE_STRICT) else s.(node := if s.length == 0 then Trailer else SpanStart)
    case SpanStart => ConsumeStep(s, b)
    case Consume => ConsumeStep(s, b)
    case DataAlmostDone =>
      if b == CR then s.(node := DataAlmostDone1) else Fails(s, if b == LF then HPE_CR_EXPECTED else HPE_STRICT)
    case DataAlmostDone1 => if b == LF then s.(node := SizeDigit, length := 0) else Fails(s, HPE_STRICT)
    case Trailer => s
    case Extensions => s
    case Failed => s
  }

  function ConsumeStep(s: State, b: byte): State {
    s.(node := if s.length == 1 then DataAlmostDone else Consume, length := s.length - 1, body := s.body + [b])
  }

  function Feed(s: State, data: bytes): State
    decreases |data|
  {
    if data == [] then s else Feed(Step(s, data[0]), data[1..])
  }

  lemma {:induction false} FeedOn(s: State, data: bytes, p: nat, p': nat)
    requires p <= p' <= |data|
    ensures Feed(s, data[p..]) == Feed(Feed(s, data[p..p']), data[p'..])
  {
    assert data[p..] == data[p..p'] + data[p'..];
    FeedBoth(s, data[p..p'], data[p'..]);
  }

  lemma {:induction false} FeedBoth(s: State, a: bytes, b: bytes)
    ensures Feed(s, a + b) == Feed(Feed(s, a), b)
    decreases |a|
  {
    if a == [] {
      assert a + b == b;
    } else {
      assert (a + b)[1..] == a[1..] + b;
      FeedBoth(Step(s, a[0]), a[1..], b);
    }
  }

  lemma {:induction false} FeedStopped(s: State, data: bytes)
    requires s.node.Trailer? || s.node.Extensions? || s.node.Failed?
    ensures Feed(s, data) == s
    decreases |data|
  {
    if data != [] { FeedStopped(s, data[1..]); }
  }

  /** The data of a chunk, or its first part. */
  lemma {:induction false} FeedData(s: State, data: bytes)
    requires (s.node.SpanStart? || s.node.Consume?) && 0 < |data| <= s.length
    ensures Feed(s, data) == State(if |data| == s.length then DataAlmostDone
                                   else Consume, s.length - |data|, s.error, s.body + data)
    decreases |data|
  {
    if |data| == 1 {
      assert data[1..] == [] && [data[0]] == data;
    } else {
      FeedData(Step(s, data[0]), data[1..]);
      assert s.body + [data[0]] + data[1..] == s.body + data;
    }
  }

  // ---------------------------------------------------------------- encoded chunks decode

  /** At the start of a chunk. */
  function AtStart(body: bytes): State {
    State(SizeDigit, 0, 0, body)
  }

  function DigitsOf(h: bytes): seq<int> {
    seq(|h|, i requires 0 <= i < |h| => Digit(h[i]))
  }

  /** A size in any spelling: upper or lower case, leading zeros. */
  predicate IsSize(h: bytes, n: int) {
    h != [] && Numeral(h, 16, n)
  }

  lemma {:induction false} DigitIs(b: byte, d: int)
    ensures IsDigitOf(b, d) <==> 0 <= d && Digit(b) == d
  {
  }

  /** The digits of a numeral stand for its number. */
  lemma {:induction false} NumeralDigits(h: bytes, n: int)
    requires Numeral(h, 16, n)
    ensures (forall i | 0 <= i < |h| :: Digit(h[i]) >= 0) && Value(16, DigitsOf(h)) == n
    decreases |h|
  {
    if h != [] {
      var k := |h| - 1;
      NumeralDigits(h[..k], n / 16);
      DigitIs(h[k], n % 16);
      assert DigitsOf(h)[..k] == DigitsOf(h[..k]);
    }
  }

  lemma {:induction false} FeedDigits(s: State, h: bytes)
    requires (s.node.SizeDigit? || s.node.Size?) && h != [] && forall i | 0 <= i < |h| :: Digit(h[i]) >= 0
    ensures Feed(s, h) ==
            match Accumulate(16, s.length, DigitsOf(h))
            case None => Fails(s, HPE_INVALID_CHUNK_SIZE)
            case Some(n) => s.(node := Size, length := n)
    decreases |h|
  {
    var ds := DigitsOf(h);
    assert ds[1..] == DigitsOf(h[1..]);
    var s' := Step(s, h[0]);
    if s'.node.Failed? {
      FeedStopped(s', h[1..]);
    } else if |h| == 1 {
      assert h[1..] == [] && ds[1..] == [];
    } else {
      FeedDigits(s', h[1..]);
    }
  }

  lemma {:induction false} DigitsFed(s: State, h: bytes)
    requires s.node.SizeDigit? && s.length == 0 && h != [] && forall i | 0 <= i < |h| :: Digit(h[i]) >= 0
    ensures var n := Value(16, DigitsOf(h));
            Feed(s, h) == if n <= UINT64_MAX then s.(node := Size, length := n) else Fails(s, HPE_INVALID_CHUNK_SIZE)
  {
    AccumulateExact(16, DigitsOf(h));
    FeedDigits(s, h);
  }

  /** The size of a chunk is the number that is written there, in either case and with any zeros in front;
      it is rejected if and only if it is at least 2^64. */
  lemma {:induction false} SizeExact(body: bytes, h: bytes, n: int)
    requires IsSize(h, n)
    ensures Feed(AtStart(body), h) == if n < 0x1_0000_0000_0000_0000 then State(Size, n, 0, body)
            else State(Failed, 0, 0xC, body)
  {
    NumeralDigits(h, n);
    DigitsFed(AtStart(body), h);
  }

  /** In particular the way that printf writes it. */
  lemma {:induction false} PrintedSize(body: bytes, n: nat, digits: string, zeros: bytes)
    requires n < 0x1_0000_0000_0000_0000 && (digits == LOWER_DIGITS || digits == UPPER_DIGITS)
    requires forall i | 0 <= i < |zeros| :: zeros[i] == '0' as int
    ensures Feed(AtStart(body), zeros + Printed(n, 16, digits)) == State(Size, n, 0, body)
  {
    PrintedNumeral(n, 16, digits, zeros);
    SizeExact(body, zeros + Printed(n, 16, digits), n);
  }

  lemma {:induction false} FeedTwo(s: State, a: byte, b: byte)
    ensures Feed(s, [a, b]) == Step(Step(s, a), b)
  {
    assert [a, b][1..] == [b] && [b][1..] == [];
    assert Feed(Step(s, a), [b]) == Step(Step(s, a), b);
  }

  datatype Chunk = Chunk(size: bytes, data: bytes)

  predicate IsChunk(c: Chunk) {
    0 < |c.data| < 0x1_0000_0000_0000_0000 && IsSize(c.size, |c.data|)
  }

  function Encode(c: Chunk): bytes {
    c.size + Ascii("\r\n") + c.data + Ascii("\r\n")
  }

  lemma {:induction false} LineEnd()
    ensures Ascii("\r\n") == [CR, LF] && Ascii("\r") == [CR] && Ascii(";") == [SEMICOLON]
  {
  }

  function EncodeAll(cs: seq<Chunk>): bytes {
    if cs == [] then [] else Encode(cs[0]) + EncodeAll(cs[1..])
  }

  function DataOf(cs: seq<Chunk>): bytes {
    if cs == [] then [] else cs[0].data + DataOf(cs[1..])
  }

  lemma {:induction false} ChunkDecodes(c: Chunk, body: bytes)
    requires IsChunk(c)
    ensures Feed(AtStart(body), Encode(c)) == AtStart(body + c.data)
  {
    var s0, n := AtStart(body), |c.data|;
    LineEnd();
    FeedBoth(s0, c.size + [CR, LF] + c.data, [CR, LF]);
    FeedBoth(s0, c.size + [CR, LF], c.data);
    FeedBoth(s0, c.size, [CR, LF]);
    SizeExact(body, c.size, n);
    var s1 := State(Size, n, 0, body);
    FeedTwo(s1, CR, LF);
    var s2 := State(SpanStart, n, 0, body);
    FeedData(s2, c.data);
    var s3 := State(DataAlmostDone, 0, 0, body + c.data);
    FeedTwo(s3, CR, LF);
  }

  /** What on_body gets for a list of encoded chunks is their data. */
  lemma {:induction false} ChunksDecode(cs: seq<Chunk>, body: bytes)
    requires forall i | 0 <= i < |cs| :: IsChunk(cs[i])
    ensures Feed(AtStart(body), EncodeAll(cs)) == AtStart(body + DataOf(cs))
    decreases |cs|
  {
    if cs == [] {
      assert body + DataOf(cs) == body;
    } else {
      FeedBoth(AtStart(body), Encode(cs[0]), EncodeAll(cs[1..]));
      ChunkDecodes(cs[0], body);
      ChunksDecode(cs[1..], body + cs[0].data);
      Two(body, cs[0].data, DataOf(cs[1..]));
      assert DataOf(cs) == cs[0].data + DataOf(cs[1..]);
    }
  }

  /** A whole body, up to where the trailers start. */
  lemma {:induction false} BodyDecodes(cs: seq<Chunk>, zero: bytes)
    requires (forall i | 0 <= i < |cs| :: IsChunk(cs[i])) && IsSize(zero, 0)
    ensures Feed(AtStart([]), EncodeAll(cs) + (zero + Ascii("\r\n"))) == State(Trailer, 0, 0, DataOf(cs))
  {
    LineEnd();
    ChunksDecode(cs, []);
    assert [] + DataOf(cs) == DataOf(cs);
    var s := AtStart(DataOf(cs));
    FeedBoth(AtStart([]), EncodeAll(cs), zero + [CR, LF]);
    FeedBoth(s, zero, [CR, LF]);
    SizeExact(DataOf(cs), zero, 0);
    FeedTwo(s.(node := Size), CR, LF);
  }

  // ---------------------------------------------------------------- the parser

  function Joined(parts: seq<bytes>): bytes {
    if parts == [] then [] else Joined(parts[..|parts| - 1]) + parts[|parts| - 1]
  }

  lemma {:induction false} JoinedNext(parts: seq<bytes>, x: bytes)
    ensures Joined(parts + [x]) == Joined(parts) + x
  {
    assert (parts + [x])[..|parts|] == parts;
  }

  class Parser {
    var current: Node
    var content_length: int
    var error: int
    var span: bool           // a span is open: _span_pos0 is not NULL
    var pieces: seq<bytes>   // what on_body has been called with

    ghost predicate Valid()
      reads this
    {
      && 0 <= content_length <= UINT64_MAX
      && (span <==> current.Consume?) && (current.SpanStart? || current.Consume? ==> content_length > 0)
      && (error != 0 <==> current.Failed?)
    }

    ghost function Reached(): State
      reads this
    {
      State(current, if current.Failed? then 0 else content_length, error, Joined(pieces))
    }

    /** The state in which the headers of a chunked message leave the parser. */
    constructor ()
      ensures Valid() && Reached() == AtStart([])
    {
      current, content_length, error, span, pieces := SizeDigit, 0, 0, false, [];
    }

    method Fail(code: int)
      requires !span && code != 0
      modifies this`current, this`error
      ensures current == Failed && error == code
    {
      current, error := Failed, code;
    }

    /** llhttp__internal__c_mul_add_content_length, and the same in base 10 for Content-Length */
    method MulAddContentLength(base: int, match_: int) returns (overflow: bool)
      requires (base == 10 || base == 16) && 0 <= match_ < base && 0 <= content_length <= UINT64_MAX
      modifies this`content_length
      ensures 0 <= content_length <= UINT64_MAX
      ensures MulAdd(base, old(content_length), match_) == if overflow then None else Some(content_length)
    {
      if content_length > UINT64_MAX / base { return true; }
      content_length := content_length * base;
      if content_length > UINT64_MAX - match_ { return true; }
      content_length := content_length + match_;
      overflow := false;
    }

    /** invoke_mul_add_content_length */
    method AddDigit(match_: int)
      requires Valid() && (current.SizeDigit? || current.Size?) && 0 <= match_ < 16
      modifies this`current, this`error, this`content_length
      ensures Valid() && Reached() == SizeStep(old(Reached()), match_)
    {
      var overflow := MulAddContentLength(16, match_);
      if overflow {
        Fail(HPE_INVALID_CHUNK_SIZE);
      } else {
        current := Size;
      }
    }

    /** The states that look at one byte. */
    method RunByte(b: byte)
      requires Valid() && !current.SpanStart? && !current.Consume? && !current.Failed? && !current.Trailer?
               && !current.Extensions?
      modifies this`current, this`error, this`content_length
      ensures Valid() && Reached() == Step(old(Reached()), b)
    {
      var d := Digit(b);
      if (current.SizeDigit? || current.Size?) && d >= 0 {
        AddDigit(d);
      } else if current.SizeDigit? {
        Fail(HPE_INVALID_CHUNK_SIZE);
      } else if current.Size? || current.SizeOtherwise? {
        if b == CR {
          current := SizeAlmostDone;
        } else if b == SEMICOLON {
          current := Extensions;
        } else {
          Fail(if b == LF then HPE_CR_EXPECTED else HPE_INVALID_CHUNK_SIZE);
        }
      } else if current.SizeAlmostDone? {
        if b == LF {
          current := if content_length == 0 then Trailer else SpanStart;
        } else {
          Fail(HPE_STRICT);
        }
      } else if current.DataAlmostDone? {
        if b == CR {
          current := DataAlmostDone1;
        } else {
          Fail(if b == LF then HPE_CR_EXPECTED else HPE_STRICT);
        }
      } else {
        if b == LF {
          content_length := 0;
          current := SizeDigit;
        } else {
          Fail(HPE_STRICT);
        }
      }
    }

    /** The data of the chunk ends here. */
    method EndData(data: bytes, p: nat) returns (p': nat)
      requires Valid() && (current.SpanStart? || current.Consume?) && p < |data| && content_length <= |data| - p
      modifies this
      ensures Valid() && !span && error == old(error) && p < p' <= |data|
      ensures Reached() == Feed(old(Reached()), data[p..p'])
    {
      p' := p + content_length;
      FeedData(Reached(), data[p..p']);
      JoinedNext(pieces, data[p..p']);
      content_length, current := 0, DataAlmostDone;
      span, pieces := false, pieces + [data[p..p']];
    }

    /** span_start and consume_content_length: everything that is there is consumed at once, and
        on_body gets it where the span ends. */
    method RunData(data: bytes, p: nat) returns (p': nat)
      requires Valid() && (current.SpanStart? || current.Consume?) && p < |data|
      modifies this
      ensures Valid() && error == old(error) && p < p' <= |data|
      ensures span ==> p' == |data| && pieces == old(pieces)
      ensures var body := Joined(pieces) + (if span then data[p..] else []);
              State(current, content_length, error, body) == Feed(old(Reached()), data[p..p'])
    {
      if |data| - p >= content_length {
        p' := EndData(data, p);
        assert Joined(pieces) + [] == Joined(pieces);
      } else {
        p' := |data|;
        assert data[p..] == data[p..p'];
        FeedData(Reached(), data[p..]);
        content_length, current, span := content_length - (|data| - p), Consume, true;
      }
    }

    /** The states, one after the other, up to the end of the data or where the model stops. */
    method RunStates(data: bytes) returns (p: nat, start: nat)
      requires Valid()
      modifies this
      ensures Valid() && start <= p <= |data| && (span ==> p == start || p == |data|)
      ensures p < |data| ==> error != 0 || current.Trailer? || current.Extensions?
      ensures var body := Joined(pieces) + (if span then data[start..p] else []);
              Feed(Reached().(body := body), data[p..]) == Feed(old(Reached()), data)
    {
      ghost var s0 := Reached();
      p, start := 0, 0;
      assert data[0..] == data && Joined(pieces) + [] == Joined(pieces) && data[0..0] == [];
      while p < |data| && error == 0 && !current.Trailer? && !current.Extensions?
        invariant Valid() && p <= |data| && start <= p && (span ==> p == start || p == |data|)
        invariant var body := Joined(pieces) + (if span then data[start..p] else []);
                  Feed(Reached().(body := body), data[p..]) == Feed(s0, data)
        decreases |data| - p
      {
        ghost var s := Reached();
        assert Joined(pieces) + (if span then data[start..p] else []) == Joined(pieces);
        if current.SpanStart? || current.Consume? {
          start := p;
          var p' := RunData(data, p);
          FeedOn(s, data, p, p');
          p := p';
        } else {
          RunByte(data[p]);
          Suffix(data, p);
          p := p + 1;
          assert Joined(pieces) + [] == Joined(pieces);
        }
      }
    }

    /** llhttp__internal_execute: what the parser has read depends only on the bytes it has been
        given, and not on how they were divided. */
    method Execute(data: bytes) returns (err: int)
      requires Valid()
      modifies this
      ensures Valid() && err == error && Reached() == Feed(old(Reached()), data)
    {
      if error != 0 {
        FeedStopped(Reached(), data);
        return error;
      }
      var p, start := RunStates(data);
      if p < |data| {
        assert Joined(pieces) + [] == Joined(pieces) by { assert !span; }
        FeedStopped(Reached(), data[p..]);
      } else {
        assert data[p..] == [];
      }
      if error == 0 && span {
        JoinedNext(pieces, data[start..]);
        assert p == |data|;
        assert data[start..] == data[start..p];
        pieces := pieces + [data[start..]];
      }
      err := error;
    }

    /** Any number of calls. */
    method ExecuteAll(parts: seq<bytes>) returns (err: int)
      requires Valid()
      modifies this
      ensures Valid() && err == error && Reached() == Feed(old(Reached()), Joined(parts))
    {
      var i := 0;
      err := error;
      while i < |parts|
        invariant 0 <= i <= |parts| && Valid() && err == error && Reached() == Feed(old(Reached()), Joined(parts[..i]))
      {
        FeedBoth(old(Reached()), Joined(parts[..i]), parts[i]);
        JoinedNext(parts[..i], parts[i]);
        assert parts[..i + 1] == parts[..i] + [parts[i]];
        err := Execute(parts[i]);
        i := i + 1;
      }
      assert parts[..i] == parts;
    }
  }
}
