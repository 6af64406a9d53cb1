/** A pool of objects in memory shared between processes: its layout, and the protocol by which any
    number of clients claim and release slots with single atomic exchanges. */
module ShmPool {
  // ---------------------------------------------------------------- layout

  const HEADER_SIZE := 24  // two 64-bit and two 32-bit fields

  /** The bytes up to the next multiple of the alignment. */
  function Padding(size: nat, alignment: nat): nat
    requires alignment > 0
  {
    (alignment - size % alignment) % alignment
  }

  lemma {:induction false} PaddingAligns(size: nat, alignment: nat)
    requires alignment > 0
    ensures (size + Padding(size, alignment)) % alignment == 0 && Padding(size, alignment) < alignment
  {
    var r := size % alignment;
    if r == 0 {
      assert alignment % alignment == 0;
    } else {
      assert Padding(size, alignment) == alignment - r;
      var q := size / alignment;
      assert size + (alignment - r) == (q + 1) * alignment by {
        assert size == q * alignment + r;
        assert (q + 1) * alignment == q * alignment + alignment;
      }
      MultipleMod(q + 1, alignment);
    }
  }

  lemma {:induction false} MultipleMod(q: int, a: nat)
    requires a > 0
    ensures (q * a) % a == 0 && (q * a) / a == q
  {
    var x := q * a;
    var d := q - x / a;
    assert d * a == x % a by {
      assert x == a * (x / a) + x % a;
      assert d * a == q * a - (x / a) * a;
    }
    assert d >= 1 ==> d * a >= a;
    assert d <= -1 ==> d * a <= 0 - a;
  }

  /** Sizes and alignments of a pool: required_alignment of the use-list's bytes, sizeof(T), alignof(T). */
  datatype Layout = Layout(count: nat, useAlign: nat, size: nat, align: nat) {
    predicate Valid() {
      useAlign > 0 && size > 0 && align > 0
    }

    function UseListOffset(): nat
      requires Valid()
    {
      HEADER_SIZE + Padding(HEADER_SIZE, useAlign)
    }

    function ObjectOffset(): nat
      requires Valid()
    {
      var before := UseListOffset() + count;
      before + Padding(before, align)
    }

    function MemSize(): nat
      requires Valid()
    {
      ObjectOffset() + size * count
    }

    /** Where slot i starts, in a mapping at address `base`. */
    function SlotAddress(base: int, i: nat): int
      requires Valid()
    {
      base + ObjectOffset() + i * size
    }

    /** The index that back() derives from an address, if it does not reject it. */
    function BackIndex(base: int, t: int): (r: int)
      requires Valid()
    {
      var start := base + ObjectOffset();
      if t < start || t >= start + count * size then -1
      else if (t - start) % size != 0 then -1
      else (t - start) / size
    }
  }

  /** The header, the use-list and the objects follow each other without overlap, fill the mapping,
      and the objects are aligned. */
  lemma {:induction false} LayoutFits(l: Layout)
    requires l.Valid()
    ensures HEADER_SIZE <= l.UseListOffset() && l.UseListOffset() + l.count <= l.ObjectOffset()
    ensures l.ObjectOffset() < l.UseListOffset() + l.count + l.align && l.UseListOffset() < HEADER_SIZE + l.useAlign
    ensures l.UseListOffset() % l.useAlign == 0 && l.ObjectOffset() % l.align == 0
    ensures forall i: nat | i < l.count :: l.ObjectOffset() + i * l.size + l.size <= l.MemSize()
    ensures forall i: nat, j: nat | i < j :: l.SlotAddress(0, i) + l.size <= l.SlotAddress(0, j)
  {
    PaddingAligns(HEADER_SIZE, l.useAlign);
    PaddingAligns(l.UseListOffset() + l.count, l.align);
    forall i: nat | i < l.count ensures l.ObjectOffset() + i * l.size + l.size <= l.MemSize() {
      Steps(i, l.count, l.size);
    }
    forall i: nat, j: nat | i < j ensures l.SlotAddress(0, i) + l.size <= l.SlotAddress(0, j) {
      Steps(i, j, l.size);
    }
  }

  lemma {:induction false} Steps(i: nat, j: nat, size: nat)
    requires i < j
    ensures i * size + size <= j * size
  {
    assert (i + 1) * size <= j * size;
  }

  /** back() maps the address of slot i to i, and rejects every other address. */
  lemma {:induction false} BackExact(l: Layout, base: int, t: int, i: nat)
    requires l.Valid()
    ensures l.BackIndex(base, t) == i <==> i < l.count && t == l.SlotAddress(base, i)
  {
    var gap := t - (base + l.ObjectOffset());
    GapExact(gap, l.size, l.count, i);
  }

  lemma {:induction false} GapExact(gap: int, size: nat, count: nat, i: nat)
    requires size > 0
    ensures (0 <= gap < count * size && gap % size == 0 && gap / size == i) <==> (i < count && gap == i * size)
  {
    if gap == i * size {
      MultipleMod(i, size);
      Ordered(i, count, size);
    } else if 0 <= gap && gap % size == 0 {
      assert gap == size * (gap / size) + gap % size;
      assert size * (gap / size) == (gap / size) * size;
    }
  }

  lemma {:induction false} Ordered(i: nat, count: nat, size: nat)
    requires size > 0
    ensures i * size < count * size <==> i < count
  {
    if i < count { Steps(i, count, size); } else { assert i * size >= count * size; }
  }

  // ---------------------------------------------------------------- the protocol

  /** Where a client is: idle, about to exchange slot i in a sweep of alloc (done when i is the
      count), or about to exchange slot i in back. */
  datatype Pc = Idle | Sweep(i: nat) | Release(i: nat)

  datatype Client = Client(pc: Pc, held: set<int>)

  /** The use-list, and the clients. */
  datatype Pool = Pool(used: seq<bool>, clients: seq<Client>)

  /** One step of client c. */
  datatype Action = StartAlloc | Claim | GiveUp | StartBack(i: nat) | Return

  predicate Enabled(p: Pool, c: nat, a: Action) {
    c < |p.clients| &&
    var x := p.clients[c];
    match a
    case StartAlloc => x.pc.Idle?
    case Claim => x.pc.Sweep? && x.pc.i < |p.used|
    case GiveUp => x.pc.Sweep? && x.pc.i >= |p.used|
    case StartBack(i) => x.pc.Idle? && i in x.held
    case Return => x.pc.Release? && x.pc.i < |p.used|
  }

  function Next(p: Pool, c: nat, a: Action): Pool
    requires Enabled(p, c, a)
  {
    var x := p.clients[c];
    match a
    case StartAlloc => p.(clients := p.clients[c := Client(Sweep(0), x.held)])
    case Claim =>  // slot.exchange(1)
      var i := x.pc.i;
      Pool(p.used[i := true],
           p.clients[c := if p.used[i] then Client(Sweep(i + 1), x.held) else Client(Idle, x.held + {i})])
    case GiveUp => p.(clients := p.clients[c := Client(Idle, x.held)])
    case StartBack(i) => p.(clients := p.clients[c := Client(Release(i), x.held)])
    case Return =>  // slot.exchange(0)
      var i := x.pc.i;
      Pool(p.used[i := false], p.clients[c := Client(Idle, x.held - {i})])
  }

  predicate Holds(p: Pool, c: int, i: int) {
    0 <= c < |p.clients| && i in p.clients[c].held
  }

  ghost predicate Held(p: Pool, i: int) {
    exists c :: Holds(p, c, i)
  }

  /** A slot is in use if and only if some client holds it, no two clients hold the same one, and a
      client that is about to return a slot still holds it. */
  ghost predicate Exclusive(p: Pool) {
    && (forall c, i | Holds(p, c, i) :: 0 <= i < |p.used| && p.used[i])
    && (forall i | 0 <= i < |p.used| && p.used[i] :: Held(p, i))
    && (forall c, d, i | Holds(p, c, i) && Holds(p, d, i) :: c == d)
    && (forall c | 0 <= c < |p.clients| && p.clients[c].pc.Release? :: Holds(p, c, p.clients[c].pc.i))
    && (forall c | 0 <= c < |p.clients| && p.clients[c].pc.Sweep? :: p.clients[c].pc.i <= |p.used|)
  }

  function CountUsed(used: seq<bool>): nat {
    if used == [] then 0 else CountUsed(used[..|used| - 1]) + if used[|used| - 1] then 1 else 0
  }

  function CountHeld(clients: seq<Client>): nat {
    if clients == [] then 0 else CountHeld(clients[..|clients| - 1]) + |clients[|clients| - 1].held|
  }

  function CountFree(used: seq<bool>): nat {
    if used == [] then 0 else CountFree(used[..|used| - 1]) + if used[|used| - 1] then 0 else 1
  }

  lemma {:induction false} UsedUpdate(used: seq<bool>, i: nat, b: bool)
    requires i < |used|
    ensures CountUsed(used[i := b]) == CountUsed(used) - (if used[i] then 1 else 0) + (if b then 1 else 0)
    decreases |used|
  {
    var n := |used| - 1;
    if i < n {
      assert used[i := b][..n] == used[..n][i := b];
      UsedUpdate(used[..n], i, b);
    } else {
      assert used[i := b][..n] == used[..n];
    }
  }

  lemma {:induction false} HeldUpdate(clients: seq<Client>, c: nat, x: Client)
    requires c < |clients|
    ensures CountHeld(clients[c := x]) == CountHeld(clients) - |clients[c].held| + |x.held|
    decreases |clients|
  {
    var n := |clients| - 1;
    if c < n {
      assert clients[c := x][..n] == clients[..n][c := x];
      HeldUpdate(clients[..n], c, x);
    } else {
      assert clients[c := x][..n] == clients[..n];
    }
  }

  lemma {:induction false} UsedOrFree(used: seq<bool>)
    ensures CountUsed(used) + CountFree(used) == |used|
    decreases |used|
  {
    if used != [] { UsedOrFree(used[..|used| - 1]); }
  }

  ghost predicate Invariant(p: Pool) {
    Exclusive(p) && CountHeld(p.clients) == CountUsed(p.used)
  }

  /** Held and free slots together are all of them. */
  lemma {:induction false} Conserved(p: Pool)
    requires Invariant(p)
    ensures CountHeld(p.clients) + CountFree(p.used) == |p.used|
  {
    UsedOrFree(p.used);
  }

  lemma {:induction false} ClaimKeeps(p: Pool, c: nat)
    requires Exclusive(p) && Enabled(p, c, Claim) && !p.used[p.clients[c].pc.i]
    ensures Exclusive(Next(p, c, Claim)) && !Held(p, p.clients[c].pc.i)
  {
    var i, q := p.clients[c].pc.i, Next(p, c, Claim);
    assert forall d, k :: Holds(q, d, k) <==> Holds(p, d, k) || (d == c && k == i);
    forall k | 0 <= k < |q.used| && q.used[k] ensures Held(q, k) {
      if k == i {
        assert Holds(q, c, i);
      } else {
        assert Held(p, k);
        var d :| Holds(p, d, k);
        assert Holds(q, d, k);
      }
    }
  }

  lemma {:induction false} ReturnKeeps(p: Pool, c: nat)
    requires Exclusive(p) && Enabled(p, c, Return)
    ensures Exclusive(Next(p, c, Return))
  {
    var i, q := p.clients[c].pc.i, Next(p, c, Return);
    assert Holds(p, c, i);
    assert forall d, k :: Holds(q, d, k) <==> Holds(p, d, k) && k != i;
    forall k | 0 <= k < |q.used| && q.used[k] ensures Held(q, k) {
      assert Held(p, k);
      var d :| Holds(p, d, k);
      assert Holds(q, d, k);
    }
  }

  /** A step that only moves a client. */
  lemma {:induction false} MoveKeeps(p: Pool, c: nat, pc: Pc)
    requires Exclusive(p) && c < |p.clients|
    requires match pc case Idle => true case Sweep(i) => i <= |p.used| case Release(i) => i in p.clients[c].held
    ensures Exclusive(p.(clients := p.clients[c := Client(pc, p.clients[c].held)]))
  {
    var q := p.(clients := p.clients[c := Client(pc, p.clients[c].held)]);
    assert forall d, k :: Holds(q, d, k) <==> Holds(p, d, k);
    forall k | 0 <= k < |q.used| && q.used[k] ensures Held(q, k) {
      assert Held(p, k);
      var d :| Holds(p, d, k);
      assert Holds(q, d, k);
    }
  }

  /** Every step of every client keeps the invariant. */
  lemma {:induction false} StepKeeps(p: Pool, c: nat, a: Action)
    requires Invariant(p) && Enabled(p, c, a)
    ensures Invariant(Next(p, c, a))
  {
    var x, q := p.clients[c], Next(p, c, a);
    HeldUpdate(p.clients, c, q.clients[c]);
    if a.Claim? && !p.used[x.pc.i] {
      UsedUpdate(p.used, x.pc.i, true);
      ClaimKeeps(p, c);
      assert x.pc.i !in x.held by { assert !Holds(p, c, x.pc.i); }
    } else if a.Return? {
      UsedUpdate(p.used, x.pc.i, false);
      ReturnKeeps(p, c);
      assert Holds(p, c, x.pc.i);
    } else {
      MoveKeeps(p, c, q.clients[c].pc);
      assert q.used == p.used && q.clients == p.clients[c := Client(q.clients[c].pc, x.held)];
    }
  }

  // ---------------------------------------------------------------- runs

  datatype Event = Event(client: nat, action: Action)

  ghost predicate Run(ps: seq<Pool>, es: seq<Event>) {
    |ps| == |es| + 1 && forall t | 0 <= t < |es| :: Follows(ps, es, t)
  }

  ghost predicate Follows(ps: seq<Pool>, es: seq<Event>, t: nat)
    requires |ps| == |es| + 1 && t < |es|
  {
    Enabled(ps[t], es[t].client, es[t].action) && ps[t + 1] == Next(ps[t], es[t].client, es[t].action)
  }

  /** All slots free, all clients idle. */
  ghost predicate Initial(p: Pool) {
    && (forall i | 0 <= i < |p.used| :: !p.used[i])
    && (forall c | 0 <= c < |p.clients| :: p.clients[c] == Client(Idle, {}))
  }

  lemma {:induction false} NoneHeld(clients: seq<Client>)
    requires forall c | 0 <= c < |clients| :: clients[c].held == {}
    ensures CountHeld(clients) == 0
    decreases |clients|
  {
    if clients != [] { NoneHeld(clients[..|clients| - 1]); }
  }

  lemma {:induction false} NoneUsed(used: seq<bool>)
    requires forall i | 0 <= i < |used| :: !used[i]
    ensures CountUsed(used) == 0
    decreases |used|
  {
    if used != [] { NoneUsed(used[..|used| - 1]); }
  }

  /** Under every interleaving, a slot is in use if and only if exactly one client holds it, and held
      plus free slots are the count. */
  lemma {:induction false} AlwaysExclusive(ps: seq<Pool>, es: seq<Event>, t: nat)
    requires Run(ps, es) && Initial(ps[0]) && t < |ps|
    ensures Invariant(ps[t]) && CountHeld(ps[t].clients) + CountFree(ps[t].used) == |ps[t].used|
    decreases t
  {
    if t == 0 {
      NoneHeld(ps[0].clients);
      NoneUsed(ps[0].used);
    } else {
      AlwaysExclusive(ps, es, t - 1);
      assert Follows(ps, es, t - 1);
      StepKeeps(ps[t - 1], es[t - 1].client, es[t - 1].action);
    }
    Conserved(ps[t]);
  }

  /** alloc gives out only slots that nobody holds, and always one that it finds free. */
  lemma {:induction false} AllocFresh(p: Pool, c: nat)
    requires Invariant(p) && Enabled(p, c, Claim)
    ensures var i, q := p.clients[c].pc.i, Next(p, c, Claim);
            if Held(p, i) then q.used == p.used && q.clients[c] == Client(Sweep(i + 1), p.clients[c].held)
            else q.clients[c] == Client(Idle, p.clients[c].held + {i})
  {
    var i := p.clients[c].pc.i;
    if !p.used[i] { ClaimKeeps(p, c); }
  }

  /** back on a held slot always succeeds: the exchange finds it in use, and leaves it free. */
  lemma {:induction false} BackSucceeds(p: Pool, c: nat)
    requires Invariant(p) && Enabled(p, c, Return)
    ensures var i, q := p.clients[c].pc.i, Next(p, c, Return); p.used[i] && !Held(q, i)
  {
    var i, q := p.clients[c].pc.i, Next(p, c, Return);
    assert Holds(p, c, i);
    ReturnKeeps(p, c);
    assert !q.used[i];
  }

  /** Slot j was in use when client c looked at it at time u. */
  ghost predicate SeenUsed(ps: seq<Pool>, c: nat, u: nat, j: nat) {
    u < |ps| && c < |ps[u].clients| && ps[u].clients[c].pc == Sweep(j) && j < |ps[u].used| && ps[u].used[j]
  }

  /** The client's sweep has not ended between the two times. */
  ghost predicate Sweeping(ps: seq<Pool>, c: nat, u: nat, t: nat) {
    u <= t < |ps| && forall k | u <= k <= t :: c < |ps[k].clients| && ps[k].clients[c].pc.Sweep?
  }

  /** A sweep that has got to slot i has seen each slot in front of it in use, at its own step. */
  lemma {:induction false} SweepSaw(ps: seq<Pool>, es: seq<Event>, c: nat, t: nat, j: nat) returns (u: nat)
    requires Run(ps, es) && Initial(ps[0]) && t < |ps| && c < |ps[t].clients| && ps[t].clients[c].pc.Sweep?
             && j < ps[t].clients[c].pc.i
    ensures u < t && SeenUsed(ps, c, u, j) && es[u] == Event(c, Claim) && Sweeping(ps, c, u, t)
    decreases t
  {
    if t == 0 {
      assert false;
    } else {
      assert Follows(ps, es, t - 1);
      if es[t - 1].client == c && ps[t - 1].clients[c].pc.Sweep? && ps[t - 1].clients[c].pc.i == j {
        u := t - 1;
      } else {
        u := SweepSaw(ps, es, c, t - 1, j);
      }
    }
  }

  /** alloc returns nullptr only after it has found every slot in use during its sweep. */
  lemma {:induction false} NullMeansSeen(ps: seq<Pool>, es: seq<Event>, t: nat, j: nat) returns (u: nat)
    requires Run(ps, es) && Initial(ps[0]) && t < |es| && es[t].action.GiveUp? && j < |ps[t].used|
    ensures u < t && SeenUsed(ps, es[t].client, u, j) && es[u] == Event(es[t].client, Claim)
            && Sweeping(ps, es[t].client, u, t)
  {
    assert Follows(ps, es, t);
    u := SweepSaw(ps, es, es[t].client, t, j);
  }

  // ---------------------------------------------------------------- undisturbed calls

  /** slot.exchange(value) */
  method Exchange(used: array<bool>, i: nat, value: bool) returns (was: bool)
    requires i < used.Length
    modifies used
    ensures was == old(used[i]) && used[..] == old(used[..])[i := value]
  {
    was := used[i];
    used[i] := value;
  }

  /** alloc, while no other client takes a step: the first free slot, or -1. */
  method Alloc(used: array<bool>) returns (r: int)
    modifies used
    ensures -1 <= r < used.Length
    ensures forall k | 0 <= k < (if r < 0 then used.Length else r) :: old(used[k])
    ensures used[..] == if r < 0 then old(used[..]) else old(used[..])[r := true]
    ensures r >= 0 ==> !old(used[r])
  {
    var i := 0;
    while i < used.Length
      invariant 0 <= i <= used.Length && used[..] == old(used[..]) && forall k | 0 <= k < i :: old(used[k])
    {
      var was := Exchange(used, i, true);
      if !was { return i; }
      assert used[..] == old(used[..])[i := true] == old(used[..]) by { assert old(used[..])[i]; }
      i := i + 1;
    }
    r := -1;
  }

  /** back, while no other client takes a step: it succeeds on the address of a slot in use. */
  method Back(l: Layout, used: array<bool>, base: int, t: int) returns (ok: bool)
    requires l.Valid() && used.Length == l.count
    modifies used
    ensures ok <==> exists i: nat | i < l.count :: t == l.SlotAddress(base, i) && old(used[i])
    ensures forall i: nat | i < l.count :: used[i] == (old(used[i]) && t != l.SlotAddress(base, i))
  {
    forall i: nat | i < l.count ensures t == l.SlotAddress(base, i) <==> l.BackIndex(base, t) == i {
      BackExact(l, base, t, i);
    }
    var index := l.BackIndex(base, t);
    if index < 0 { return false; }
    BackInside(l, base, t);
    ghost var before := used[..];
    ok := Exchange(used, index, false);
    assert forall i | 0 <= i < l.count :: used[i] == before[index := false][i];
    assert ok ==> t == l.SlotAddress(base, index) && old(used[index]);
  }

  lemma {:induction false} BackInside(l: Layout, base: int, t: int)
    requires l.Valid() && l.BackIndex(base, t) >= 0
    ensures l.BackIndex(base, t) < l.count
  {
    BackExact(l, base, t, l.BackIndex(base, t));
  }
}
