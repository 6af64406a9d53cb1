/** The parser accepts exactly the texts of the grammar, and gives them their meaning. */
module XmlExact {
  import opened Bytes
  import opened Gaps
  import opened Notation
  import opened XmlText
  import opened XmlTokens
  import XmlRound
  import G = XmlGrammar

  // ---------------------------------------------------------------- start tags

  lemma {:induction false} TagMarks()
    ensures Ascii("<") == [LT] && Ascii(">") == [GT] && Ascii("/>") == [SLASH, GT] && Ascii("</") == [LT, SLASH]
    ensures Ascii("=") == [EQ]
    ensures forall b: byte :: b in Ascii("\"\'") <==> b == QUOTE || b == APOS
  {
    var s := Ascii("\"\'");
    assert s[0] == QUOTE && s[1] == APOS;
  }

  lemma {:induction false} NameIs(s: bytes)
    ensures G.IsName(s) <==> IsName(s)
  {
  }

  lemma {:induction false} AttrShape(a: G.Attr, rest: bytes)
    ensures G.AttrText(a) + rest ==
            a.before +
            (a.key + (a.left + ([EQ] + (a.right + ([a.quote] + (G.UnitsText(a.value) + ([a.quote] + rest)))))))
  {
    TagMarks();
    var text, q := G.UnitsText(a.value), [a.quote];
    var front := a.before + a.key + a.left + [EQ] + a.right;
    Two(front + q + text, q, rest);
    Two(front + q, text, q + rest);
    Two(front, q, text + (q + rest));
    var y := q + (text + (q + rest));
    Two(a.before + a.key + a.left + [EQ], a.right, y);
    Two(a.before + a.key + a.left, [EQ], a.right + y);
    Two(a.before + a.key, a.left, [EQ] + (a.right + y));
    Two(a.before, a.key, a.left + ([EQ] + (a.right + y)));
  }

  lemma {:induction false} QuotedRead(a: G.Attr, rest: bytes)
    requires G.AttrOk(a)
    ensures AttrValue(a.right + ([a.quote] + (G.UnitsText(a.value) + ([a.quote] + rest)))) ==
            Got(G.UnitsBytes(a.value), rest)
  {
    var text, q := G.UnitsText(a.value), a.quote;
    TagMarks();
    Cons(q, text + ([q] + rest));
    SkipTo(a.right, [q] + (text + ([q] + rest)));
    XmlRound.UpToFirst(text, q, rest);
    Cons(q, rest);
    DecodeRead(a.value);
  }

  lemma {:induction false} KeyRead(a: G.Attr, y: bytes)
    requires IsName(a.key) && Spaces(a.left)
    ensures Name(a.key + (a.left + ([EQ] + y))) == Got(a.key, a.left + ([EQ] + y))
    ensures SkipSpaces(a.left + ([EQ] + y)) == [EQ] + y
  {
    var rest := a.left + ([EQ] + y);
    if a.left != [] { SpaceIs(a.left[0]); }
    XmlRound.NameRound(a.key, rest);
    SkipTo(a.left, [EQ] + y);
  }

  lemma {:induction false} AttrStep(s: bytes, t: bytes, key: bytes, u: bytes, y: bytes, value: bytes, rest: bytes,
                                    acc: seq<Entry<bytes>>)
    requires SkipSpaces(s) == t && t != [] && IsNameStart(t[0]) && Name(t) == Got(key, u)
    requires SkipSpaces(u) == [EQ] + y && AttrValue(y) == Got(value, rest) && |rest| < |s|
    ensures Attrs(s, acc) == if HasKey(acc, key) then Fail else Attrs(rest, Put(acc, key, value))
  {
    Cons(EQ, y);
  }

  lemma {:induction false} AttrRead(a: G.Attr, acc: seq<Entry<bytes>>, rest: bytes)
    requires G.AttrOk(a)
    ensures Attrs(G.AttrText(a) + rest, acc) ==
            if HasKey(acc, a.key) then Fail else Attrs(rest, Put(acc, a.key, G.UnitsBytes(a.value)))
  {
    var s := G.AttrText(a) + rest;
    var y := a.right + ([a.quote] + (G.UnitsText(a.value) + ([a.quote] + rest)));
    var t := a.key + (a.left + ([EQ] + y));
    AttrShape(a, rest);
    NameIs(a.key);
    assert t[0] == a.key[0];
    SkipTo(a.before, t);
    KeyRead(a, y);
    QuotedRead(a, rest);
    AttrStep(s, t, a.key, a.left + ([EQ] + y), y, G.UnitsBytes(a.value), rest, acc);
  }

  lemma {:induction false} PutKey(acc: seq<Entry<bytes>>, key: bytes, value: bytes, k: bytes)
    requires HasKey(Put(acc, key, value), k)
    ensures k == key || HasKey(acc, k)
  {
    var put := Put(acc, key, value);
    var i :| 0 <= i < |put| && put[i].key == k;
    PutFrom(acc, key, value, i);
    if k != key {
      var j :| 0 <= j < |acc| && acc[j] == put[i];
    }
  }

  predicate NewKeys(xs: seq<G.Attr>, acc: seq<Entry<bytes>>) {
    forall i | 0 <= i < |xs| :: !HasKey(acc, xs[i].key)
  }

  lemma {:induction false} StillNew(xs: seq<G.Attr>, acc: seq<Entry<bytes>>)
    requires xs != [] && NewKeys(xs, acc) && G.Distinct(xs)
    ensures NewKeys(xs[1..], Put(acc, xs[0].key, G.UnitsBytes(xs[0].value))) && G.Distinct(xs[1..])
  {
    var value := G.UnitsBytes(xs[0].value);
    forall i | 0 <= i < |xs[1..]| ensures !HasKey(Put(acc, xs[0].key, value), xs[1..][i].key) {
      assert xs[1..][i] == xs[i + 1] && xs[0].key != xs[i + 1].key;
      if HasKey(Put(acc, xs[0].key, value), xs[i + 1].key) { PutKey(acc, xs[0].key, value, xs[i + 1].key); }
    }
  }

  /** Attributes are read one after the other. */
  lemma {:induction false} AttrsRead(xs: seq<G.Attr>, acc: seq<Entry<bytes>>, rest: bytes)
    requires (forall i | 0 <= i < |xs| :: G.AttrOk(xs[i])) && G.Distinct(xs) && NewKeys(xs, acc)
    ensures Attrs(G.AttrsText(xs) + rest, acc) == Attrs(rest, G.Assigned(xs, acc))
    decreases |xs|
  {
    if xs == [] {
      assert [] + rest == rest;
    } else {
      Two(G.AttrText(xs[0]), G.AttrsText(xs[1..]), rest);
      AttrRead(xs[0], acc, G.AttrsText(xs[1..]) + rest);
      StillNew(xs, acc);
      AttrsRead(xs[1..], Put(acc, xs[0].key, G.UnitsBytes(xs[0].value)), rest);
    }
  }

  lemma {:induction false} TagRead(gap: bytes, closed: bool, acc: seq<Entry<bytes>>, rest: bytes)
    requires Spaces(gap)
    ensures Attrs(gap + ((if closed then [SLASH, GT] else [GT]) + rest), acc) == Got(Tag(acc, closed), rest)
  {
    var t := (if closed then [SLASH, GT] else [GT]) + rest;
    SkipTo(gap, t);
    assert t[if closed then 2 else 1..] == rest;
  }

  // ---------------------------------------------------------------- comments and instructions

  lemma {:induction false} CommentMarks()
    ensures Ascii("<!--") == COMMENT_OPEN && Ascii("-->") == COMMENT_CLOSE && Ascii("?>") == PI_CLOSE
  {
  }

  /** A closing mark ends with a byte that it does not hold before. */
  predicate IsClose(t: bytes) {
    t != [] && forall i | 0 <= i < |t| - 1 :: t[i] != t[|t| - 1]
  }

  lemma {:induction false} Differs(s: bytes, t: bytes, i: nat)
    requires i < |t| && (i < |s| ==> s[i] != t[i])
    ensures !StartsWith(s, t)
  {
    if |t| <= |s| { assert s[..|t|][i] == s[i]; }
  }

  lemma {:induction false} NotBefore(inner: bytes, close: bytes, rest: bytes)
    requires IsClose(close) && G.Lacks(inner, close) && inner != []
    ensures !StartsWith(inner + (close + rest), close) && G.Lacks(inner[1..], close)
  {
    var s, n := inner + (close + rest), |close|;
    if n <= |inner| {
      assert !G.IsAt(inner, 0, close) && inner[0..n] == s[..n];
    } else {
      assert s[n - 1] == close[n - 1 - |inner|];
      Differs(s, close, n - 1);
    }
    forall i | 0 <= i <= |inner[1..]| ensures !G.IsAt(inner[1..], i, close) {
      assert !G.IsAt(inner, i + 1, close);
      if i + n <= |inner[1..]| { assert inner[1..][i..i + n] == inner[i + 1..i + 1 + n]; }
    }
  }

  lemma {:induction false} PastRead(inner: bytes, close: bytes, rest: bytes)
    requires IsClose(close) && G.Lacks(inner, close)
    ensures Past(inner + (close + rest), close) == Some(rest)
    decreases |inner|
  {
    var s := inner + (close + rest);
    if inner == [] {
      assert s == close + rest;
      assert s[..|close|] == close && s[|close|..] == rest;
    } else {
      NotBefore(inner, close, rest);
      assert s[1..] == inner[1..] + (close + rest);
      PastRead(inner[1..], close, rest);
    }
  }

  lemma {:induction false} LacksCons(b: byte, inner: bytes, close: bytes, rest: bytes)
    requires G.Lacks(inner, close) && close != [] && !StartsWith([b] + inner + close + rest, close)
    ensures G.Lacks([b] + inner, close)
  {
    var t, n := [b] + inner, |close|;
    forall i | 0 <= i <= |t| ensures !G.IsAt(t, i, close) {
      if i == 0 {
        if n <= |t| { assert (t + close + rest)[..n] == t[0..n]; }
      } else {
        assert !G.IsAt(inner, i - 1, close);
        if i + n <= |t| { assert t[i..i + n] == inner[i - 1..i - 1 + n]; }
      }
    }
  }

  lemma {:induction false} PastOf(s: bytes, close: bytes) returns (inner: bytes)
    requires close != [] && Past(s, close).Some?
    ensures G.Lacks(inner, close) && s == inner + (close + Past(s, close).v)
    decreases |s|
  {
    if StartsWith(s, close) {
      inner := [];
      assert s == [] + (close + s[|close|..]);
    } else {
      var more := PastOf(s[1..], close);
      inner := [s[0]] + more;
      var rest := Past(s, close).v;
      assert s == inner + (close + rest) == [s[0]] + more + close + rest;
      LacksCons(s[0], more, close, rest);
    }
  }

  // ---------------------------------------------------------------- elements

  lemma {:induction false} EndIs(name: bytes)
    ensures Ascii("</") + name + Ascii(">") == EndTag(name)
  {
    TagMarks();
  }

  lemma {:induction false} ChildrenSkip(gap: bytes, s: bytes, name: bytes, depth: nat, acc: seq<Element>)
    requires Spaces(gap)
    ensures Children(gap + s, name, depth, acc) == Children(s, name, depth, acc)
  {
    SkipOver(gap, s);
  }

  lemma {:induction false} EndRead(name: bytes, depth: nat, acc: seq<Element>, rest: bytes)
    ensures Children(EndTag(name) + rest, name, depth, acc) == Got(acc, rest)
  {
    var t := EndTag(name) + rest;
    assert t[0] == LT && t[1] == SLASH && t[..|EndTag(name)|] == EndTag(name) && t[|EndTag(name)|..] == rest;
    NoSpaces(t);
  }

  lemma {:induction false} CommentRead(inner: bytes, after: bytes, more: bytes, name: bytes, depth: nat,
                                       acc: seq<Element>)
    requires G.Lacks(inner, COMMENT_CLOSE) && Spaces(after)
    ensures Children(COMMENT_OPEN + inner + COMMENT_CLOSE + after + more, name, depth, acc) ==
            Children(more, name, depth, acc)
  {
    CommentShape(inner, after, more);
    CommentStep(inner + (COMMENT_CLOSE + (after + more)), name, depth, acc);
    PastRead(inner, COMMENT_CLOSE, after + more);
    ChildrenSkip(after, more, name, depth, acc);
  }

  lemma {:induction false} CommentStep(y: bytes, name: bytes, depth: nat, acc: seq<Element>)
    ensures Children(COMMENT_OPEN + y, name, depth, acc) ==
            match Past(y, COMMENT_CLOSE)
            case None => Fail
            case Some(rest) => Children(rest, name, depth, acc)
  {
    var t := COMMENT_OPEN + y;
    assert t[..4] == COMMENT_OPEN && t[4..] == y;
    NoSpaces(t);
  }

  /** What is behind a child or a comment starts with a tag. */
  predicate AtTag(s: bytes) {
    s != [] && s[0] == LT
  }

  lemma {:induction false} TextAtTag(gap: bytes, s: bytes)
    requires Spaces(gap) && AtTag(s)
    ensures Text(gap + s) == Got([], s)
  {
    SkipTo(gap, s);
  }

  lemma {:induction false} ChildStep(t: bytes, child: Element, after: bytes, more: bytes, name: bytes, depth: nat,
                                     acc: seq<Element>)
    requires IsElementStart(t) && ElementAt(t, depth + 1) == Got(child, after + more) && Spaces(after) && AtTag(more)
    ensures Children(t, name, depth, acc) == Children(more, name, depth, acc + [child])
  {
    NoSpaces(t);
    TextAtTag(after, more);
    Differs(t, COMMENT_OPEN, 1);
  }

  lemma {:induction false} NodeStarts(n: G.Node, rest: bytes)
    requires G.IsName(n.name)
    ensures IsElementStart(G.Text(n) + rest)
  {
    TagMarks();
    var s := G.Text(n) + rest;
    assert s[0] == LT && s[1] == n.name[0];
  }

  lemma {:induction false} PartsStart(ps: seq<G.Part>, name: bytes, rest: bytes)
    requires forall i | 0 <= i < |ps| :: G.PartOk(ps[i])
    ensures AtTag(G.PartsText(ps) + (EndTag(name) + rest))
  {
    if ps != [] && ps[0].Comment? {
      CommentMarks();
      assert G.PartText(ps[0])[0] == LT;
    } else if ps != [] {
      assert G.PartOk(ps[0]);
      NodeParts(ps[0].node);
      NodeStarts(ps[0].node, []);
      assert G.PartText(ps[0])[0] == G.Text(ps[0].node)[0] == (G.Text(ps[0].node) + [])[0];
    }
  }

  lemma {:induction false} TextRead(lead: bytes, us: seq<G.Unit>, y: bytes)
    requires Spaces(lead) && G.TextOk(us) && AtTag(y)
    ensures Text(lead + (G.UnitsText(us) + y)) == Got(G.UnitsText(us), y)
  {
    var x := G.UnitsText(us);
    assert '<' as int == LT;
    assert y == [LT] + y[1..];
    if x != [] { SpaceIs(x[0]); }
    SkipTo(lead, x + y);
    XmlRound.UpToFirst(x, LT, y[1..]);
  }

  /** What is behind the name of an element. */
  function Behind(n: G.Node, rest: bytes): bytes {
    G.AttrsText(n.attrs) + (n.gap + (G.BodyText(n.body, n.name) + rest))
  }

  lemma {:induction false} NodeShape(n: G.Node, rest: bytes)
    ensures G.Text(n) + rest == [LT] + (n.name + Behind(n, rest))
  {
    TagMarks();
    var body := G.BodyText(n.body, n.name);
    Two([LT] + n.name + G.AttrsText(n.attrs) + n.gap, body, rest);
    Two([LT] + n.name + G.AttrsText(n.attrs), n.gap, body + rest);
    Two([LT] + n.name, G.AttrsText(n.attrs), n.gap + (body + rest));
    Two([LT], n.name, Behind(n, rest));
  }

  lemma {:induction false} BodyHead(n: G.Node, rest: bytes)
    ensures var y := G.BodyText(n.body, n.name) + rest; y != [] && (y[0] == GT || y[0] == SLASH)
  {
    TagMarks();
  }

  lemma {:induction false} AttrsHead(xs: seq<G.Attr>, y: bytes)
    requires xs != [] && xs[0].before != [] && Spaces(xs[0].before)
    ensures G.AttrsText(xs) + y != [] && IsSpace((G.AttrsText(xs) + y)[0])
  {
    var a := xs[0];
    SpaceIs(a.before[0]);
    Two(G.AttrText(a), G.AttrsText(xs[1..]), y);
    AttrShape(a, G.AttrsText(xs[1..]) + y);
  }

  lemma {:induction false} GapHead(gap: bytes, y: bytes)
    requires Spaces(gap) && y != []
    ensures gap + y != [] && (IsSpace((gap + y)[0]) || (gap + y)[0] == y[0])
  {
    if gap != [] { SpaceIs(gap[0]); }
  }

  lemma {:induction false} NodeParts(n: G.Node)
    requires G.NodeOk(n)
    ensures G.IsName(n.name) && Spaces(n.gap)
    ensures n.attrs != [] ==> n.attrs[0].before != [] && Spaces(n.attrs[0].before)
  {
    if n.attrs != [] { assert G.AttrOk(n.attrs[0]); }
  }

  /** The name of an element is over there. */
  lemma {:induction false} BehindStops(n: G.Node, rest: bytes)
    requires G.NodeOk(n)
    ensures Behind(n, rest) != [] && !IsNameByte(Behind(n, rest)[0])
  {
    var y := G.BodyText(n.body, n.name) + rest;
    NodeParts(n);
    BodyHead(n, rest);
    if n.attrs != [] {
      AttrsHead(n.attrs, n.gap + y);
    } else {
      GapHead(n.gap, y);
      assert Behind(n, rest) == n.gap + y;
    }
  }

  lemma {:induction false} StartRead(n: G.Node, depth: nat, rest: bytes)
    requires G.NodeOk(n) && depth < K_MAX_DEPTH
    ensures ElementAt(G.Text(n) + rest, depth) == AfterName(Behind(n, rest), n.name, depth)
  {
    NodeShape(n, rest);
    BehindStops(n, rest);
    NameIs(n.name);
    XmlRound.NameRound(n.name, Behind(n, rest));
    Cons(LT, n.name + Behind(n, rest));
    BodyStep(G.Text(n) + rest, n.name, Behind(n, rest), depth);
  }

  /** The bracket that ends a start tag. */
  function Close(b: G.Body): bytes {
    if b.Closed? then [SLASH, GT] else [GT]
  }

  /** What is behind the start tag. */
  function Inside(n: G.Node, rest: bytes): bytes {
    match n.body
    case Closed => rest
    case Open(lead, text, parts) =>
      lead + (G.UnitsText(text) + (G.PartsText(parts) + (EndTag(n.name) + rest)))
  }

  lemma {:induction false} BodyShape(n: G.Node, rest: bytes)
    ensures G.BodyText(n.body, n.name) + rest == Close(n.body) + Inside(n, rest)
  {
    TagMarks();
    if n.body.Open? {
      var lead, text, parts := n.body.lead, G.UnitsText(n.body.text), G.PartsText(n.body.parts);
      var end := [LT, SLASH] + n.name + [GT];
      EndIs(n.name);
      assert [GT] + lead + text + parts + [LT, SLASH] + n.name + [GT] == [GT] + lead + text + parts + end;
      Two([GT] + lead + text + parts, end, rest);
      Two([GT] + lead + text, parts, end + rest);
      Two([GT] + lead, text, parts + (end + rest));
      Two([GT], lead, text + (parts + (end + rest)));
    }
  }

  lemma {:induction false} StartTagRead(n: G.Node, rest: bytes)
    requires G.NodeOk(n)
    ensures Attrs(Behind(n, rest), []) == Got(Tag(G.Assigned(n.attrs, []), n.body.Closed?), Inside(n, rest))
  {
    BodyShape(n, rest);
    AttrsRead(n.attrs, [], n.gap + (Close(n.body) + Inside(n, rest)));
    TagRead(n.gap, n.body.Closed?, G.Assigned(n.attrs, []), Inside(n, rest));
  }

  lemma {:induction false} AfterNameStep(s: bytes, name: bytes, depth: nat, tag: Tag, r: bytes, text: bytes, r': bytes)
    requires Attrs(s, []) == Got(tag, r) && !tag.empty && Text(r) == Got(text, r')
    ensures AfterName(s, name, depth) ==
            match Children(r', name, depth, [])
            case Fail => Fail
            case Got(children, end) => Got(Element(name, Decode(text), tag.attrs, children), end)
  {
  }

  lemma {:induction false} NodeRead(n: G.Node, depth: nat, rest: bytes)
    requires G.NodeOk(n) && depth + G.Levels(n) <= K_MAX_DEPTH
    ensures ElementAt(G.Text(n) + rest, depth) == Got(G.Meaning(n), rest)
    decreases n
  {
    StartRead(n, depth, rest);
    StartTagRead(n, rest);
    if n.body.Open? {
      var text, parts := n.body.text, n.body.parts;
      var y := G.PartsText(parts) + (EndTag(n.name) + rest);
      PartsStart(parts, n.name, rest);
      TextRead(n.body.lead, text, y);
      DecodeRead(text);
      ChildrenRead(parts, n.name, depth, [], rest);
      AfterNameStep(Behind(n, rest), n.name, depth, Tag(G.Assigned(n.attrs, []), false), Inside(n, rest),
                    G.UnitsText(text), y);
      assert [] + G.Children(parts) == G.Children(parts);
    }
  }

  lemma {:induction false} ChildRead(p: G.Part, more: bytes, name: bytes, depth: nat, acc: seq<Element>)
    requires p.Child? && G.PartOk(p) && AtTag(more) && depth + 1 + G.Levels(p.node) <= K_MAX_DEPTH
    ensures Children(G.PartText(p) + more, name, depth, acc) == Children(more, name, depth, acc + [G.Meaning(p.node)])
    decreases p
  {
    Two(G.Text(p.node), p.after, more);
    NodeParts(p.node);
    NodeStarts(p.node, p.after + more);
    NodeRead(p.node, depth + 1, p.after + more);
    ChildStep(G.Text(p.node) + (p.after + more), G.Meaning(p.node), p.after, more, name, depth, acc);
  }

  lemma {:induction false} ChildrenRead(ps: seq<G.Part>, name: bytes, depth: nat, acc: seq<Element>, rest: bytes)
    requires (forall i | 0 <= i < |ps| :: G.PartOk(ps[i])) && depth + 1 + G.PartsLevels(ps) <= K_MAX_DEPTH
    ensures Children(G.PartsText(ps) + (EndTag(name) + rest), name, depth, acc) == Got(acc + G.Children(ps), rest)
    decreases ps
  {
    if ps == [] {
      EndRead(name, depth, acc, rest);
      assert acc + [] == acc && [] + (EndTag(name) + rest) == EndTag(name) + rest;
    } else {
      var p, more := ps[0], G.PartsText(ps[1..]) + (EndTag(name) + rest);
      Two(G.PartText(p), G.PartsText(ps[1..]), EndTag(name) + rest);
      assert G.PartOk(p);
      if p.Comment? {
        CommentMarks();
        CommentRead(p.inner, p.after, more, name, depth, acc);
        ChildrenRead(ps[1..], name, depth, acc, rest);
        assert [] + G.Children(ps[1..]) == G.Children(ps[1..]);
      } else {
        PartsStart(ps[1..], name, rest);
        ChildRead(p, more, name, depth, acc);
        ChildrenRead(ps[1..], name, depth, acc + [G.Meaning(p.node)], rest);
        assert acc + [G.Meaning(p.node)] + G.Children(ps[1..]) == acc + ([G.Meaning(p.node)] + G.Children(ps[1..]));
      }
    }
  }

  // ---------------------------------------------------------------- what is read is a text

  lemma {:induction false} NameOf(s: bytes)
    requires Name(s).Got?
    ensures var name, rest := Name(s).v, Name(s).rest;
            G.IsName(name) && s == name + rest && (rest != [] ==> !IsNameByte(rest[0]))
  {
  }

  lemma {:induction false} UpToOf(s: bytes, b: byte)
    requires UpTo(s, b).Got?
    ensures s == UpTo(s, b).v + UpTo(s, b).rest && b !in UpTo(s, b).v
    decreases |s|
  {
    if s[0] == b {
      assert [] + s == s;
    } else {
      UpToOf(s[1..], b);
      assert s == [s[0]] + s[1..];
      Two([s[0]], UpTo(s[1..], b).v, UpTo(s, b).rest);
    }
  }

  lemma {:induction false} QuotedOf(y: bytes) returns (right: bytes, quote: byte, us: seq<G.Unit>)
    requires AttrValue(y).Got?
    ensures Spaces(right) && quote in Ascii("\"\'") && G.UnitsOk(us) && quote !in G.UnitsText(us)
    ensures y == right + ([quote] + (G.UnitsText(us) + ([quote] + AttrValue(y).rest)))
    ensures AttrValue(y).v == G.UnitsBytes(us)
  {
    TagMarks();
    right := Skipped(y);
    var t := SkipSpaces(y);
    quote := t[0];
    var r := UpTo(t[1..], quote);
    UpToOf(t[1..], quote);
    us := DecodeOf(r.v);
    HeadTail(t);
    HeadTail(r.rest);
  }

  lemma {:induction false} AttrOf(s: bytes, acc: seq<Entry<bytes>>) returns (a: G.Attr, rest: bytes)
    requires Attrs(s, acc).Got?
    requires var t := SkipSpaces(s); t[0] != GT && t[0] != SLASH
    ensures G.AttrOk(a) && s == G.AttrText(a) + rest && |rest| < |s| && !HasKey(acc, a.key)
    ensures Attrs(s, acc) == Attrs(rest, Put(acc, a.key, G.UnitsBytes(a.value)))
  {
    var before := Skipped(s);
    var t := SkipSpaces(s);
    NameOf(t);
    var key, r := Name(t).v, Name(t).rest;
    var left := Skipped(r);
    var u := SkipSpaces(r);
    HeadTail(u);
    var right, quote, us := QuotedOf(u[1..]);
    rest := AttrValue(u[1..]).rest;
    a := G.Attr(before, key, left, right, quote, us);
    AttrShape(a, rest);
  }

  lemma {:induction false} PutHas(acc: seq<Entry<bytes>>, key: bytes, value: bytes, k: bytes)
    requires k == key || HasKey(acc, k)
    ensures HasKey(Put(acc, key, value), k)
    decreases |acc|
  {
    var put := Put(acc, key, value);
    if acc == [] || Less(key, acc[0].key) {
      assert put == [Entry(key, value)] + acc;
      assert put[0].key == key;
      if k != key {
        var i :| 0 <= i < |acc| && acc[i].key == k;
        assert put[i + 1].key == k;
      }
    } else {
      var i := if k == key then 0 else HasAt(acc, k);
      if acc[0].key == k || (acc[0].key == key && k == key) {
        assert put[0].key == k;
      } else if acc[0].key == key {
        assert put[i] == acc[i];
      } else {
        if k != key { assert acc[1..][i - 1].key == k; }
        PutHas(acc[1..], key, value, k);
        var j := HasAt(Put(acc[1..], key, value), k);
        assert put[j + 1].key == k;
      }
    }
  }

  ghost function HasAt(acc: seq<Entry<bytes>>, k: bytes): (i: int)
    requires HasKey(acc, k)
    ensures 0 <= i < |acc| && acc[i].key == k
  {
    var i :| 0 <= i < |acc| && acc[i].key == k;
    i
  }

  lemma {:induction false} WasNew(a: G.Attr, more: seq<G.Attr>, acc: seq<Entry<bytes>>)
    requires NewKeys(more, Put(acc, a.key, G.UnitsBytes(a.value))) && G.Distinct(more) && !HasKey(acc, a.key)
    ensures NewKeys([a] + more, acc) && G.Distinct([a] + more)
  {
    var xs, value := [a] + more, G.UnitsBytes(a.value);
    forall i | 0 <= i < |more| ensures more[i].key != a.key && !HasKey(acc, more[i].key) {
      if more[i].key == a.key || HasKey(acc, more[i].key) { PutHas(acc, a.key, value, more[i].key); }
    }
    forall i, j | 0 <= i < j < |xs| ensures xs[i].key != xs[j].key {
      assert xs[j] == more[j - 1];
      if i > 0 { assert xs[i] == more[i - 1]; }
    }
  }

  lemma {:induction false} AttrsOf(s: bytes, acc: seq<Entry<bytes>>) returns (xs: seq<G.Attr>, gap: bytes)
    requires Attrs(s, acc).Got?
    ensures (forall i | 0 <= i < |xs| :: G.AttrOk(xs[i])) && G.Distinct(xs) && NewKeys(xs, acc) && Spaces(gap)
    ensures var tag := Attrs(s, acc).v;
            && tag.attrs == G.Assigned(xs, acc)
            && s == G.AttrsText(xs) + (gap + ((if tag.empty then [SLASH, GT] else [GT]) + Attrs(s, acc).rest))
    decreases |s|
  {
    var t := SkipSpaces(s);
    if t[0] == GT || t[0] == SLASH {
      gap := Skipped(s);
      xs := [];
      assert t == (if t[0] == SLASH then [SLASH, GT] else [GT]) + Attrs(s, acc).rest;
      assert [] + s == s;
    } else {
      var a, rest := AttrOf(s, acc);
      var more;
      more, gap := AttrsOf(rest, Put(acc, a.key, G.UnitsBytes(a.value)));
      xs := [a] + more;
      assert xs[1..] == more;
      WasNew(a, more, acc);
      var tag := Attrs(s, acc).v;
      Two(G.AttrText(a), G.AttrsText(more),
          gap + ((if tag.empty then [SLASH, GT] else [GT]) + Attrs(s, acc).rest));
    }
  }

  lemma {:induction false} TextOf(s: bytes) returns (lead: bytes, us: seq<G.Unit>)
    requires Text(s).Got?
    ensures Spaces(lead) && G.TextOk(us) && G.UnitsText(us) == Text(s).v && G.UnitsBytes(us) == Decode(Text(s).v)
    ensures s == lead + (G.UnitsText(us) + Text(s).rest) && AtTag(Text(s).rest)
  {
    lead := Skipped(s);
    var t := SkipSpaces(s);
    UpToOf(t, LT);
    us := DecodeOf(Text(s).v);
    assert '<' as int == LT;
    if Text(s).v != [] {
      assert Text(s).v[0] == t[0];
      SpaceIs(t[0]);
    }
  }

  lemma {:induction false} NoGap(gap: bytes, s: bytes)
    requires Spaces(gap) && AtTag(gap + s)
    ensures gap == [] && gap + s == s
  {
    if gap != [] { SpaceIs(gap[0]); }
  }

  /** The first attribute of an element is not part of its name. */
  lemma {:induction false} NameEnds(xs: seq<G.Attr>, y: bytes)
    requires xs != [] && G.AttrOk(xs[0]) && G.AttrsText(xs) + y != [] && !IsNameByte((G.AttrsText(xs) + y)[0])
    ensures xs[0].before != []
  {
    var a := xs[0];
    Two(G.AttrText(a), G.AttrsText(xs[1..]), y);
    AttrShape(a, G.AttrsText(xs[1..]) + y);
    NameIs(a.key);
  }

  lemma {:induction false} NodeFrom(name: bytes, s: bytes, xs: seq<G.Attr>, gap: bytes, body: G.Body)
    returns (n: G.Node)
    requires G.IsName(name) && (s != [] ==> !IsNameByte(s[0])) && Spaces(gap) && G.BodyOk(body)
    requires (forall i | 0 <= i < |xs| :: G.AttrOk(xs[i])) && G.Distinct(xs) && G.AttrsText(xs) <= s
    ensures n == G.Node(name, xs, gap, body) && G.NodeOk(n)
  {
    n := G.Node(name, xs, gap, body);
    if xs != [] {
      var y := s[|G.AttrsText(xs)|..];
      assert s == G.AttrsText(xs) + y;
      assert G.AttrOk(xs[0]);
      AttrShape(xs[0], G.AttrsText(xs[1..]));
      NameEnds(xs, y);
    }
  }

  lemma {:induction false} NodeOf(s: bytes, depth: nat) returns (n: G.Node)
    requires IsElementStart(s) && ElementAt(s, depth).Got?
    ensures G.NodeOk(n) && s == G.Text(n) + ElementAt(s, depth).rest
    ensures G.Meaning(n) == ElementAt(s, depth).v && depth + G.Levels(n) <= K_MAX_DEPTH
    decreases |s|, 1
  {
    HeadTail(s);
    NameOf(s[1..]);
    var name, tail, rest := Name(s[1..]).v, Name(s[1..]).rest, ElementAt(s, depth).rest;
    BodyStep(s, name, tail, depth);
    n := AfterNameOf(tail, name, depth);
    NodeShape(n, rest);
  }

  lemma {:induction false} AfterNameOf(s: bytes, name: bytes, depth: nat) returns (n: G.Node)
    requires AfterName(s, name, depth).Got? && depth < K_MAX_DEPTH && G.IsName(name) && (s != [] ==> !IsNameByte(s[0]))
    ensures G.NodeOk(n) && n.name == name && s == Behind(n, AfterName(s, name, depth).rest)
    ensures G.Meaning(n) == AfterName(s, name, depth).v && depth + G.Levels(n) <= K_MAX_DEPTH
    decreases |s|, 1
  {
    var xs, gap := AttrsOf(s, []);
    var tag, r := Attrs(s, []).v, Attrs(s, []).rest;
    var body := G.Closed;
    if !tag.empty {
      AfterNameStep(s, name, depth, tag, r, Text(r).v, Text(r).rest);
      body := OpenOf(r, name, depth);
    }
    n := NodeFrom(name, s, xs, gap, body);
    BodyShape(n, AfterName(s, name, depth).rest);
  }

  lemma {:induction false} OpenOf(r: bytes, name: bytes, depth: nat) returns (body: G.Body)
    requires Text(r).Got? && Children(Text(r).rest, name, depth, []).Got? && depth < K_MAX_DEPTH
    ensures var end := Children(Text(r).rest, name, depth, []);
            && body.Open? && G.BodyOk(body) && depth + 1 + G.PartsLevels(body.parts) <= K_MAX_DEPTH
            && r == body.lead + (G.UnitsText(body.text) + (G.PartsText(body.parts) + (EndTag(name) + end.rest)))
            && G.UnitsBytes(body.text) == Decode(Text(r).v) && G.Children(body.parts) == end.v
    decreases |r|, 6
  {
    var lead, us := TextOf(r);
    var y := Text(r).rest;
    var rest := Children(y, name, depth, []).rest;
    var gap, ps := ChildrenOf(y, name, depth, []);
    NoGap(gap, G.PartsText(ps) + (EndTag(name) + rest));
    body := G.Open(lead, us, ps);
    assert [] + G.Children(ps) == G.Children(ps);
  }

  lemma {:induction false} Regrouped<T>(acc: seq<T>, x: T, more: seq<T>)
    ensures acc + [x] + more == acc + ([x] + more)
  {
  }

  lemma {:induction false} PartsCons(p: G.Part, more: seq<G.Part>, acc: seq<Element>)
    ensures G.PartsText([p] + more) == G.PartText(p) + G.PartsText(more)
    ensures acc + G.Children([p] + more) == (if p.Child? then acc + [G.Meaning(p.node)] else acc) + G.Children(more)
    ensures G.PartsLevels([p] + more) == G.Max(if p.Child? then G.Levels(p.node) else 0, G.PartsLevels(more))
  {
    assert ([p] + more)[1..] == more;
    if p.Child? {
      Regrouped(acc, G.Meaning(p.node), G.Children(more));
    } else {
      assert [] + G.Children(more) == G.Children(more);
    }
  }

  lemma {:induction false} ChildrenOf(s: bytes, name: bytes, depth: nat, acc: seq<Element>)
    returns (gap: bytes, ps: seq<G.Part>)
    requires Children(s, name, depth, acc).Got? && depth < K_MAX_DEPTH
    ensures Spaces(gap) && forall i | 0 <= i < |ps| :: G.PartOk(ps[i])
    ensures s == gap + (G.PartsText(ps) + (EndTag(name) + Children(s, name, depth, acc).rest))
    ensures Children(s, name, depth, acc).v == acc + G.Children(ps) && depth + 1 + G.PartsLevels(ps) <= K_MAX_DEPTH
    decreases |s|, 5
  {
    gap := Skipped(s);
    ChildrenSkip(gap, SkipSpaces(s), name, depth, acc);
    ps := PartsAhead(SkipSpaces(s), name, depth, acc);
  }

  lemma {:induction false} AtChild(t: bytes, name: bytes, depth: nat, acc: seq<Element>)
    requires Children(t, name, depth, acc).Got? && (t != [] ==> !IsSpace(t[0]))
    ensures |t| > 1 && t[0] == LT
    ensures var r := Children(t, name, depth, acc); t[1] == SLASH ==> r.v == acc && t == EndTag(name) + r.rest
  {
    if t != [] { NoSpaces(t); }
  }

  lemma {:induction false} PartsAhead(t: bytes, name: bytes, depth: nat, acc: seq<Element>) returns (ps: seq<G.Part>)
    requires Children(t, name, depth, acc).Got? && depth < K_MAX_DEPTH && (t != [] ==> !IsSpace(t[0]))
    ensures forall i | 0 <= i < |ps| :: G.PartOk(ps[i])
    ensures t == G.PartsText(ps) + (EndTag(name) + Children(t, name, depth, acc).rest)
    ensures Children(t, name, depth, acc).v == acc + G.Children(ps) && depth + 1 + G.PartsLevels(ps) <= K_MAX_DEPTH
    decreases |t|, 4
  {
    AtChild(t, name, depth, acc);
    if t[1] == SLASH {
      ps := [];
      assert [] + t == t && acc + [] == acc;
    } else {
      var p, more := PartOf(t, name, depth, acc);
      ps := [p] + more;
      PartsCons(p, more, acc);
      Two(G.PartText(p), G.PartsText(more), EndTag(name) + Children(t, name, depth, acc).rest);
    }
  }

  /** A comment at the front. */
  lemma {:induction false} CommentOf(t: bytes, name: bytes, depth: nat, acc: seq<Element>)
    returns (inner: bytes, r: bytes)
    requires StartsWith(t, COMMENT_OPEN) && Children(t, name, depth, acc).Got?
    ensures G.Lacks(inner, COMMENT_CLOSE) && t == COMMENT_OPEN + (inner + (COMMENT_CLOSE + r)) && |r| < |t|
    ensures Children(t, name, depth, acc) == Children(r, name, depth, acc)
  {
    assert t == COMMENT_OPEN + t[4..];
    CommentStep(t[4..], name, depth, acc);
    inner := PastOf(t[4..], COMMENT_CLOSE);
    r := Past(t[4..], COMMENT_CLOSE).v;
  }

  /** A child at the front. */
  lemma {:induction false} ChildOf(t: bytes, name: bytes, depth: nat, acc: seq<Element>)
    returns (n: G.Node, after: bytes, r: bytes)
    requires |t| > 1 && t[0] == LT && t[1] != SLASH && !StartsWith(t, COMMENT_OPEN)
    requires Children(t, name, depth, acc).Got?
    ensures G.NodeOk(n) && Spaces(after) && t == G.Text(n) + (after + r) && AtTag(r) && |r| < |t|
    ensures depth + 1 + G.Levels(n) <= K_MAX_DEPTH
    ensures Children(t, name, depth, acc) == Children(r, name, depth, acc + [G.Meaning(n)])
    decreases |t|, 2
  {
    NoSpaces(t);
    n := NodeOf(t, depth + 1);
    var s := ElementAt(t, depth + 1).rest;
    after := Skipped(s);
    r := Text(s).rest;
    UpToOf(SkipSpaces(s), LT);
    assert [] + r == r;
  }

  lemma {:induction false} PartOf(t: bytes, name: bytes, depth: nat, acc: seq<Element>)
    returns (p: G.Part, more: seq<G.Part>)
    requires |t| > 1 && t[0] == LT && t[1] != SLASH && Children(t, name, depth, acc).Got? && depth < K_MAX_DEPTH
    ensures G.PartOk(p) && (forall i | 0 <= i < |more| :: G.PartOk(more[i]))
    ensures t == G.PartText(p) + (G.PartsText(more) + (EndTag(name) + Children(t, name, depth, acc).rest))
    ensures Children(t, name, depth, acc).v ==
            (if p.Child? then acc + [G.Meaning(p.node)] else acc) + G.Children(more)
    ensures (p.Child? ==> depth + 1 + G.Levels(p.node) <= K_MAX_DEPTH) && depth + 1 + G.PartsLevels(more) <= K_MAX_DEPTH
    decreases |t|, 3
  {
    var rest := Children(t, name, depth, acc).rest;
    if StartsWith(t, COMMENT_OPEN) {
      var inner, r := CommentOf(t, name, depth, acc);
      var gap;
      gap, more := ChildrenOf(r, name, depth, acc);
      p := G.Comment(inner, gap);
      CommentMarks();
      CommentShape(inner, gap, G.PartsText(more) + (EndTag(name) + rest));
    } else {
      var n, after, r := ChildOf(t, name, depth, acc);
      var gap;
      gap, more := ChildrenOf(r, name, depth, acc + [G.Meaning(n)]);
      NoGap(gap, G.PartsText(more) + (EndTag(name) + rest));
      p := G.Child(n, after);
      Two(G.Text(n), after, r);
    }
  }

  lemma {:induction false} CommentShape(inner: bytes, gap: bytes, more: bytes)
    ensures COMMENT_OPEN + inner + COMMENT_CLOSE + gap + more ==
            COMMENT_OPEN + (inner + (COMMENT_CLOSE + (gap + more)))
  {
    Two(COMMENT_OPEN + inner + COMMENT_CLOSE, gap, more);
    Two(COMMENT_OPEN + inner, COMMENT_CLOSE, gap + more);
    Two(COMMENT_OPEN, inner, COMMENT_CLOSE + (gap + more));
  }

  // ---------------------------------------------------------------- whole documents

  /** The end of the input, or a byte that is no space. */
  predicate NoGapHere(s: bytes) {
    s == [] || !IsSpace(s[0])
  }

  lemma {:induction false} SkipHere(gap: bytes, s: bytes)
    requires Spaces(gap) && NoGapHere(s)
    ensures SkipSpaces(gap + s) == s
  {
    SkipOver(gap, s);
  }

  lemma {:induction false} RemarkRead(inner: bytes, after: bytes, more: bytes)
    requires G.Lacks(inner, COMMENT_CLOSE) && Spaces(after) && NoGapHere(more)
    ensures Misc(COMMENT_OPEN + (inner + (COMMENT_CLOSE + (after + more)))) == Misc(more)
  {
    var y := inner + (COMMENT_CLOSE + (after + more));
    var s := COMMENT_OPEN + y;
    assert s[..4] == COMMENT_OPEN && s[4..] == y;
    PastRead(inner, COMMENT_CLOSE, after + more);
    SkipHere(after, more);
  }

  lemma {:induction false} InstructionStep(s: bytes, rest: bytes)
    requires |s| > 1 && s[0] == LT && s[1] == QUESTION && Past(s, PI_CLOSE) == Some(rest)
    ensures Misc(s) == Misc(SkipSpaces(rest))
  {
    Differs(s, COMMENT_OPEN, 1);
  }

  lemma {:induction false} InstructionRead(inner: bytes, after: bytes, more: bytes)
    requires G.Lacks(inner, PI_CLOSE) && (inner == [] || inner[0] == QUESTION) && Spaces(after) && NoGapHere(more)
    ensures Misc([LT] + inner + (PI_CLOSE + (after + more))) == Misc(more)
  {
    var s := [LT] + inner + (PI_CLOSE + (after + more));
    assert s[0] == LT && s[1] == QUESTION;
    assert s == [LT] + inner + PI_CLOSE + (after + more);
    Differs(s, PI_CLOSE, 0);
    LacksCons(LT, inner, PI_CLOSE, after + more);
    PastRead([LT] + inner, PI_CLOSE, after + more);
    InstructionStep(s, after + more);
    SkipHere(after, more);
  }

  lemma {:induction false} MiscShape(m: G.Misc, more: bytes)
    ensures G.MiscText(m) + more ==
            if m.Remark? then COMMENT_OPEN + (m.inner + (COMMENT_CLOSE + (m.after + more)))
            else [LT] + m.inner + (PI_CLOSE + (m.after + more))
  {
    CommentMarks();
    TagMarks();
    if m.Remark? {
      CommentShape(m.inner, m.after, more);
    } else {
      Two([LT] + m.inner + PI_CLOSE, m.after, more);
      Two([LT] + m.inner, PI_CLOSE, m.after + more);
    }
  }

  lemma {:induction false} MiscRead(m: G.Misc, more: bytes)
    requires G.MiscOk(m) && NoGapHere(more)
    ensures Misc(G.MiscText(m) + more) == Misc(more) && NoGapHere(G.MiscText(m) + more)
  {
    CommentMarks();
    MiscShape(m, more);
    if m.Remark? { RemarkRead(m.inner, m.after, more); } else { InstructionRead(m.inner, m.after, more); }
  }

  lemma {:induction false} MiscsRead(ms: seq<G.Misc>, more: bytes)
    requires G.MiscsOk(ms) && NoGapHere(more)
    ensures Misc(G.MiscsText(ms) + more) == Misc(more) && NoGapHere(G.MiscsText(ms) + more)
    decreases |ms|
  {
    if ms == [] {
      assert [] + more == more;
    } else {
      MiscsRead(ms[1..], more);
      Two(G.MiscText(ms[0]), G.MiscsText(ms[1..]), more);
      MiscRead(ms[0], G.MiscsText(ms[1..]) + more);
    }
  }

  lemma {:induction false} LacksTail(s: bytes, close: bytes)
    requires s != [] && G.Lacks(s, close)
    ensures G.Lacks(s[1..], close)
  {
    var n := |close|;
    forall i | 0 <= i <= |s[1..]| ensures !G.IsAt(s[1..], i, close) {
      assert !G.IsAt(s, i + 1, close);
      if i + n <= |s[1..]| { assert s[1..][i..i + n] == s[i + 1..i + 1 + n]; }
    }
  }

  lemma {:induction false} InstructionOf(s: bytes) returns (inner: bytes)
    requires |s| > 1 && s[0] == LT && s[1] == QUESTION && Past(s, PI_CLOSE).Some?
    ensures G.Lacks(inner, PI_CLOSE) && (inner == [] || inner[0] == QUESTION)
    ensures s == [LT] + inner + (PI_CLOSE + Past(s, PI_CLOSE).v)
  {
    var front := PastOf(s, PI_CLOSE);
    var rest := Past(s, PI_CLOSE).v;
    HeadTail(front);
    inner := front[1..];
    LacksTail(front, PI_CLOSE);
    assert front[0] == s[0] && (inner != [] ==> inner[0] == s[1]);
  }

  lemma {:induction false} MiscsOf(s: bytes) returns (ms: seq<G.Misc>)
    requires Misc(s).Some?
    ensures G.MiscsOk(ms) && s == G.MiscsText(ms) + Misc(s).v
    decreases |s|
  {
    CommentMarks();
    if StartsWith(s, COMMENT_OPEN) {
      var inner := PastOf(s[4..], COMMENT_CLOSE);
      var rest := Past(s[4..], COMMENT_CLOSE).v;
      assert s == COMMENT_OPEN + s[4..];
      ms := MoreOf(s, rest, G.Remark(inner, []));
    } else if |s| > 1 && s[0] == LT && s[1] == QUESTION {
      var inner := InstructionOf(s);
      InstructionStep(s, Past(s, PI_CLOSE).v);
      ms := MoreOf(s, Past(s, PI_CLOSE).v, G.Instruction(inner, []));
    } else {
      ms := [];
      assert [] + s == s;
    }
  }

  lemma {:induction false} MoreOf(s: bytes, rest: bytes, m: G.Misc) returns (ms: seq<G.Misc>)
    requires |rest| < |s| && Misc(s) == Misc(SkipSpaces(rest)) && Misc(s).Some? && G.MiscOk(m) && m.after == []
    requires s == if m.Remark? then COMMENT_OPEN + (m.inner + (COMMENT_CLOSE + rest))
                  else [LT] + m.inner + (PI_CLOSE + rest)
    ensures G.MiscsOk(ms) && s == G.MiscsText(ms) + Misc(s).v
    decreases |s|, 0
  {
    var after := Skipped(rest);
    var more := MiscsOf(SkipSpaces(rest));
    var m' := m.(after := after);
    ms := [m'] + more;
    assert ms[1..] == more;
    MiscShape(m', G.MiscsText(more) + Misc(s).v);
    Two(G.MiscText(m'), G.MiscsText(more), Misc(s).v);
  }

  function Unmarked(s: bytes): bytes {
    if StartsWith(s, BOM) then s[3..] else s
  }

  lemma {:induction false} MarkRead(mark: bool, x: bytes)
    requires x != [] ==> x[0] != BOM[0]
    ensures Unmarked((if mark then BOM else []) + x) == x
  {
    var s := (if mark then BOM else []) + x;
    if mark {
      assert s[..3] == BOM && s[3..] == x;
    } else {
      assert s == x;
      Differs(x, BOM, 0);
    }
  }

  /** What is in front of the root is skipped. */
  lemma {:induction false} FrontRead(lead: bytes, ms: seq<G.Misc>, y: bytes)
    requires Spaces(lead) && G.MiscsOk(ms) && IsElementStart(y)
    ensures var s := lead + (G.MiscsText(ms) + y); s != [] && s[0] != BOM[0] && Misc(SkipSpaces(s)) == Some(y)
  {
    var x := G.MiscsText(ms) + y;
    MiscsRead(ms, y);
    MiscsHead(ms, y);
    SkipHere(lead, x);
    GapHead(lead, x);
    Differs(y, COMMENT_OPEN, 1);
  }

  lemma {:induction false} MiscsHead(ms: seq<G.Misc>, y: bytes)
    requires AtTag(y)
    ensures AtTag(G.MiscsText(ms) + y)
  {
    if ms != [] { MiscShape(ms[0], G.MiscsText(ms[1..])); }
  }

  lemma {:induction false} DocShape(d: G.Doc)
    ensures G.DocText(d) == (if d.mark then BOM else []) + (d.lead + (G.MiscsText(d.before) +
                            (G.Text(d.root) + (d.after + G.MiscsText(d.behind)))))
  {
    var mark := if d.mark then BOM else [];
    var end := G.MiscsText(d.behind);
    Two(mark + d.lead + G.MiscsText(d.before) + G.Text(d.root), d.after, end);
    Two(mark + d.lead + G.MiscsText(d.before), G.Text(d.root), d.after + end);
    Two(mark + d.lead, G.MiscsText(d.before), G.Text(d.root) + (d.after + end));
    Two(mark, d.lead, G.MiscsText(d.before) + (G.Text(d.root) + (d.after + end)));
  }

  lemma {:induction false} DocumentStep(s: bytes, t: bytes, e: Element, rest: bytes)
    requires Misc(SkipSpaces(Unmarked(s))) == Some(t) && IsElementStart(t) && ElementAt(t, 0) == Got(e, rest)
    ensures Document(s) == if Misc(SkipSpaces(rest)) == Some([]) then Some(e) else None
  {
  }

  lemma {:induction false} RootRead(n: G.Node, behind: bytes)
    requires G.NodeOk(n) && G.Levels(n) <= 128
    ensures var y := G.Text(n) + behind; IsElementStart(y) && ElementAt(y, 0) == Got(G.Meaning(n), behind)
  {
    NodeParts(n);
    NodeStarts(n, behind);
    NodeRead(n, 0, behind);
  }

  lemma {:induction false} EndsRead(after: bytes, ms: seq<G.Misc>)
    requires Spaces(after) && G.MiscsOk(ms)
    ensures Misc(SkipSpaces(after + G.MiscsText(ms))) == Some([])
  {
    MiscsRead(ms, []);
    assert G.MiscsText(ms) + [] == G.MiscsText(ms);
    SkipHere(after, G.MiscsText(ms));
  }

  /** s is read as the document d. */
  lemma {:induction false} DocumentRead(s: bytes, d: G.Doc)
    requires G.IsText(s, d)
    ensures Document(s) == Some(G.Meaning(d.root))
  {
    var behind := d.after + G.MiscsText(d.behind);
    var y := G.Text(d.root) + behind;
    RootRead(d.root, behind);
    FrontRead(d.lead, d.before, y);
    DocShape(d);
    MarkRead(d.mark, d.lead + (G.MiscsText(d.before) + y));
    EndsRead(d.after, d.behind);
    DocumentStep(s, y, G.Meaning(d.root), behind);
  }

  lemma {:induction false} DocumentParts(s: bytes) returns (t: bytes, rest: bytes)
    requires Document(s).Some?
    ensures Misc(SkipSpaces(Unmarked(s))) == Some(t) && IsElementStart(t) && ElementAt(t, 0) == Got(Document(s).v, rest)
    ensures Misc(SkipSpaces(rest)) == Some([])
  {
    t := Misc(SkipSpaces(Unmarked(s))).v;
    rest := ElementAt(t, 0).rest;
  }

  lemma {:induction false} FrontOf(x: bytes, t: bytes) returns (lead: bytes, ms: seq<G.Misc>)
    requires Misc(SkipSpaces(x)) == Some(t)
    ensures Spaces(lead) && G.MiscsOk(ms) && x == lead + (G.MiscsText(ms) + t)
  {
    lead := Skipped(x);
    ms := MiscsOf(SkipSpaces(x));
  }

  lemma {:induction false} DocumentOf(s: bytes) returns (d: G.Doc)
    requires Document(s).Some?
    ensures G.IsText(s, d) && G.Meaning(d.root) == Document(s).v
  {
    var t, rest := DocumentParts(s);
    var lead, before := FrontOf(Unmarked(s), t);
    var root := NodeOf(t, 0);
    var after, behind := FrontOf(rest, []);
    d := G.Doc(StartsWith(s, BOM), lead, before, root, after, behind);
    DocShape(d);
    MarkOf(s);
    assert G.MiscsText(behind) + [] == G.MiscsText(behind);
  }

  lemma {:induction false} MarkOf(s: bytes)
    ensures s == (if StartsWith(s, BOM) then BOM else []) + Unmarked(s)
  {
    if StartsWith(s, BOM) { assert s == s[..3] + s[3..]; } else { assert [] + s == s; }
  }

  /** The parser accepts a document if and only if it is a text of the grammar, with at most 128 levels of
      elements, and then it gives the element that the text stands for. */
  lemma {:induction false} DocumentExact(s: bytes, e: Element)
    ensures Document(s) == Some(e) <==> G.Denotes(s, e)
  {
    if Document(s) == Some(e) {
      var d := DocumentOf(s);
    }
    forall d | G.IsText(s, d) && G.Meaning(d.root) == e ensures Document(s) == Some(e) {
      DocumentRead(s, d);
    }
  }

  /** The value that the text writes for a key. */
  function Written(xs: seq<G.Attr>, key: bytes): Option<bytes> {
    if xs == [] then None
    else if xs[0].key == key then Some(G.UnitsBytes(xs[0].value))
    else Written(xs[1..], key)
  }

  lemma {:induction false} UnwrittenKey(xs: seq<G.Attr>, key: bytes)
    requires forall i | 0 <= i < |xs| :: xs[i].key != key
    ensures Written(xs, key).None?
    decreases |xs|
  {
    if xs != [] { UnwrittenKey(xs[1..], key); }
  }

  /** The attributes of an element are those of its start tag, in the order of their keys. */
  lemma {:induction false} AttrsWritten(xs: seq<G.Attr>, acc: seq<Entry<bytes>>, key: bytes)
    requires G.Distinct(xs) && Sorted(acc)
    ensures Sorted(G.Assigned(xs, acc))
    ensures Lookup(G.Assigned(xs, acc), key) == if Written(xs, key).Some? then Written(xs, key) else Lookup(acc, key)
    decreases |xs|
  {
    if xs != [] {
      var value := G.UnitsBytes(xs[0].value);
      PutSorted(acc, xs[0].key, value);
      PutLookup(acc, xs[0].key, value, key);
      AttrsWritten(xs[1..], Put(acc, xs[0].key, value), key);
      if xs[0].key == key {
        forall i | 0 <= i < |xs[1..]| ensures xs[1..][i].key != key { assert xs[1..][i] == xs[i + 1]; }
        UnwrittenKey(xs[1..], key);
      }
    }
  }
}
