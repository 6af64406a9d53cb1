/** Timers, and a manager that keeps them in a queue ordered by expiry and in an index by id. */
module Timer {
  const UINT64_MAX := 0xFFFF_FFFF_FFFF_FFFF
  const REPEAT_INFINITE := -1

  // ---------------------------------------------------------------- timers

  datatype Timer = Timer(id: int, expiry: int, repeats: int, interval: int) {
    predicate IsExpired(now: int) {
      now >= expiry
    }

    /** A timer that the manager accepts: it fires at least once, and one that fires more than once
        has an interval. */
    predicate Armed() {
      0 <= expiry <= UINT64_MAX && 0 <= interval <= UINT64_MAX && (repeats >= 1 || repeats == REPEAT_INFINITE)
          && (interval > 0 || repeats == 1)
    }
  }

  /** A time, as far as the clock goes. */
  function Clock(time: int): int {
    if time <= UINT64_MAX then time else UINT64_MAX
  }

  function Later(time: int, interval: int): int {
    if interval > UINT64_MAX - time then UINT64_MAX else time + interval
  }

  /** The constructor. */
  function NewTimer(id: int, now: int, repeats: int, interval: int): Timer {
    Timer(id, Later(now, interval), repeats, interval)
  }

  /** run */
  function Ran(t: Timer): Timer {
    var repeats := if t.repeats >= 1 then t.repeats - 1 else t.repeats;
    Timer(t.id, if repeats != 0 then Later(t.expiry, t.interval) else t.expiry, repeats, t.interval)
  }

  /** The timer after k firings. */
  function Iterate(t: Timer, k: nat): Timer
    decreases k
  {
    if k == 0 then t else Iterate(Ran(t), k - 1)
  }

  /** The timer as it is for each of its first k firings. */
  function Firings(t: Timer, k: nat): seq<Timer>
    decreases k
  {
    if k == 0 then [] else [t] + Firings(Ran(t), k - 1)
  }

  lemma {:induction false} FiringsAt(t: Timer, k: nat, i: nat)
    requires i < k
    ensures |Firings(t, k)| == k && Firings(t, k)[i] == Iterate(t, i)
    decreases k
  {
    if i > 0 {
      FiringsAt(Ran(t), k - 1, i - 1);
    } else if k > 1 {
      FiringsAt(Ran(t), k - 1, 0);
    }
  }

  lemma {:induction false} FiringsBoth(t: Timer, a: nat, b: nat)
    ensures Firings(t, a + b) == Firings(t, a) + Firings(Iterate(t, a), b)
    ensures Iterate(t, a + b) == Iterate(Iterate(t, a), b)
    decreases a
  {
    if a > 0 { FiringsBoth(Ran(t), a - 1, b); }
  }

  /** Each firing but the last moves the expiry on by one interval, as far as the clock goes. */
  lemma {:induction false} IterateTime(t: Timer, k: nat)
    requires 0 <= t.expiry <= UINT64_MAX && 0 <= t.interval && (t.repeats == REPEAT_INFINITE || k < t.repeats)
    ensures var x, due := Iterate(t, k), t.expiry + k * t.interval;
            && x.expiry == Clock(due)
            && x.repeats == (if t.repeats == REPEAT_INFINITE then REPEAT_INFINITE else t.repeats - k)
               && x.interval == t.interval && x.id == t.id
    decreases k
  {
    if k > 0 {
      IterateTime(Ran(t), k - 1);
      assert k * t.interval == (k - 1) * t.interval + t.interval;
    }
  }

  /** The k-th firing is at the start plus k intervals, as far as the clock goes. */
  lemma {:induction false} FiringTime(id: int, start: int, repeats: int, interval: int, k: nat)
    requires 0 <= start <= UINT64_MAX && 0 <= interval <= UINT64_MAX && k >= 1
             && (repeats == REPEAT_INFINITE || k <= repeats)
    ensures Iterate(NewTimer(id, start, repeats, interval), k - 1).expiry == Clock(start + k * interval)
  {
    IterateTime(NewTimer(id, start, repeats, interval), k - 1);
    assert k * interval == interval + (k - 1) * interval;
  }

  // ---------------------------------------------------------------- which timers are accepted

  /** A timer that fires once, or more often with some time in between. */
  predicate Accepts(repeats: int, interval: int) {
    repeats == 1 || (interval > 0 && (repeats > 1 || repeats == -1))
  }

  /** There is a k-th firing. */
  predicate Happens(repeats: int, k: int) {
    repeats == -1 || 1 <= k <= repeats
  }

  /** The k-th firing, on a clock without end. */
  function DueAt(start: int, interval: int, k: int): int {
    start + k * interval
  }

  /** There is a first firing, and no two are due at one instant. */
  ghost predicate OneByOne(start: int, repeats: int, interval: int) {
    && Happens(repeats, 1)
    && forall i, j | 1 <= i < j && Happens(repeats, j) :: DueAt(start, interval, i) != DueAt(start, interval, j)
  }

  lemma {:induction false} DueOnce(start: int, interval: int, i: int, j: int)
    requires i < j && interval > 0
    ensures DueAt(start, interval, i) < DueAt(start, interval, j)
  {
    assert (j - i) * interval > 0;
    assert j * interval == i * interval + (j - i) * interval;
  }

  /** The manager accepts a timer if and only if it fires, and never twice at one instant. */
  lemma {:induction false} AcceptedIff(id: int, start: int, repeats: int, interval: int)
    requires 0 <= start <= UINT64_MAX && 0 <= interval <= UINT64_MAX
    ensures NewTimer(id, start, repeats, interval).Armed() <==> OneByOne(start, repeats, interval)
    ensures NewTimer(id, start, repeats, interval).Armed() <==> Accepts(repeats, interval)
  {
    if Accepts(repeats, interval) {
      forall i, j | 1 <= i < j && Happens(repeats, j) ensures DueAt(start, interval, i) != DueAt(start, interval, j) {
        DueOnce(start, interval, i, j);
      }
    } else if Happens(repeats, 2) {
      assert DueAt(start, interval, 1) == DueAt(start, interval, 2);
    }
  }

  lemma {:induction false} IterateKeeps(t: Timer, k: nat)
    ensures Iterate(t, k).id == t.id
    ensures t.repeats >= k ==> Iterate(t, k).repeats == t.repeats - k
    decreases k
  {
    if k > 0 { IterateKeeps(Ran(t), k - 1); }
  }

  lemma {:induction false} RanArmed(t: Timer)
    requires t.Armed()
    ensures Ran(t).repeats == 0 || Ran(t).Armed()
    ensures Ran(t).repeats != 0 ==> Ran(t).expiry > t.expiry || Ran(t).expiry == UINT64_MAX
    ensures Ran(t).id == t.id && Ran(t).expiry >= t.expiry
  {
  }

  // ---------------------------------------------------------------- the queue

  /** An entry of the multimap from expiry to timer. */
  datatype Node = Node(key: int, timer: Timer)

  predicate Ascending(q: seq<Node>) {
    forall i, j | 0 <= i < j < |q| :: q[i].key <= q[j].key
  }

  /** The keys are in order and are the timers' expiries; ids are unique. */
  predicate QueueOk(q: seq<Node>) {
    && Ascending(q)
    && (forall i | 0 <= i < |q| :: q[i].key == q[i].timer.expiry && q[i].timer.Armed())
    && (forall i, j | 0 <= i < j < |q| :: q[i].timer.id != q[j].timer.id)
  }

  predicate HasId(q: seq<Node>, id: int) {
    exists i | 0 <= i < |q| :: q[i].timer.id == id
  }

  /** Where emplace puts a key: behind all entries with keys that are not greater. */
  function UpperBound(q: seq<Node>, key: int): (k: nat)
    ensures k <= |q|
  {
    if q == [] || q[0].key > key then 0 else 1 + UpperBound(q[1..], key)
  }

  lemma {:induction false} BoundSplits(q: seq<Node>, key: int)
    ensures var k := UpperBound(q, key); (forall i | 0 <= i < k :: q[i].key <= key) && (k < |q| ==> q[k].key > key)
    decreases |q|
  {
    if q != [] { BoundSplits(q[1..], key); }
  }

  function InsertAt(q: seq<Node>, k: nat, n: Node): seq<Node>
    requires k <= |q|
  {
    q[..k] + [n] + q[k..]
  }

  function Emplace(q: seq<Node>, t: Timer): seq<Node> {
    InsertAt(q, UpperBound(q, t.expiry), Node(t.expiry, t))
  }

  function Erase(q: seq<Node>, i: nat): seq<Node>
    requires i < |q|
  {
    q[..i] + q[i + 1..]
  }

  lemma {:induction false} InsertElements(q: seq<Node>, k: nat, n: Node)
    requires k <= |q|
    ensures |InsertAt(q, k, n)| == |q| + 1
    ensures forall j | 0 <= j <= |q| :: InsertAt(q, k, n)[j] == if j < k then q[j] else if j == k then n else q[j - 1]
    ensures forall x :: x in InsertAt(q, k, n) <==> x in q || x == n
  {
    assert forall x :: x in q <==> x in q[..k] || x in q[k..];
  }

  lemma {:induction false} EmplaceAscends(q: seq<Node>, t: Timer)
    requires Ascending(q)
    ensures Ascending(Emplace(q, t))
  {
    var k := UpperBound(q, t.expiry);
    BoundSplits(q, t.expiry);
    InsertElements(q, k, Node(t.expiry, t));
    forall j | k <= j < |q| ensures q[j].key > t.expiry { assert k < j ==> q[k].key <= q[j].key; }
  }

  lemma {:induction false} EmplaceUnique(q: seq<Node>, t: Timer)
    requires (forall i, j | 0 <= i < j < |q| :: q[i].timer.id != q[j].timer.id) && !HasId(q, t.id)
    ensures forall i, j | 0 <= i < j < |Emplace(q, t)| :: Emplace(q, t)[i].timer.id != Emplace(q, t)[j].timer.id
  {
    InsertElements(q, UpperBound(q, t.expiry), Node(t.expiry, t));
  }

  lemma {:induction false} EmplaceOk(q: seq<Node>, t: Timer)
    requires QueueOk(q) && t.Armed() && !HasId(q, t.id)
    ensures QueueOk(Emplace(q, t)) && |Emplace(q, t)| == |q| + 1
    ensures forall n :: n in Emplace(q, t) <==> n in q || n == Node(t.expiry, t)
  {
    InsertElements(q, UpperBound(q, t.expiry), Node(t.expiry, t));
    EmplaceAscends(q, t);
    EmplaceUnique(q, t);
  }

  lemma {:induction false} EraseOk(q: seq<Node>, i: nat)
    requires QueueOk(q) && i < |q|
    ensures QueueOk(Erase(q, i)) && !HasId(Erase(q, i), q[i].timer.id)
    ensures forall n :: n in Erase(q, i) <==> n in q && n != q[i]
  {
    var q' := Erase(q, i);
    assert forall k | 0 <= k < |q| && k != i :: q[k] == q'[if k < i then k else k - 1];
  }

  /** The queue without the timer with this id. */
  function Without(q: seq<Node>, id: int): seq<Node> {
    if q == [] then [] else if q[0].timer.id == id then q[1..] else [q[0]] + Without(q[1..], id)
  }

  lemma {:induction false} WithoutErases(q: seq<Node>, i: nat)
    requires i < |q| && forall j | 0 <= j < i :: q[j].timer.id != q[i].timer.id
    ensures Without(q, q[i].timer.id) == Erase(q, i)
    decreases |q|
  {
    if i > 0 {
      WithoutErases(q[1..], i - 1);
      assert [q[0]] + Erase(q[1..], i - 1) == Erase(q, i);
    }
  }

  lemma {:induction false} WithoutNone(q: seq<Node>, id: int)
    requires !HasId(q, id)
    ensures Without(q, id) == q
    decreases |q|
  {
    if q != [] {
      assert q[0].timer.id != id;
      forall i | 0 <= i < |q[1..]| ensures q[1..][i].timer.id != id { assert q[1..][i] == q[i + 1]; }
      WithoutNone(q[1..], id);
    }
  }

  lemma {:induction false} WithoutOk(q: seq<Node>, id: int)
    requires QueueOk(q)
    ensures QueueOk(Without(q, id)) && !HasId(Without(q, id), id)
    ensures forall n :: n in Without(q, id) <==> n in q && n.timer.id != id
  {
    if HasId(q, id) {
      var i :| 0 <= i < |q| && q[i].timer.id == id;
      WithoutErases(q, i);
      EraseOk(q, i);
    } else {
      WithoutNone(q, id);
      forall n | n in q ensures n.timer.id != id {}
    }
  }

  // ---------------------------------------------------------------- the index

  /** Queue and index hold the same entries. */
  predicate Agree(q: seq<Node>, index: map<int, Node>) {
    && (forall n | n in q :: n.timer.id in index && index[n.timer.id] == n)
    && (forall id | id in index :: index[id] in q && index[id].timer.id == id)
  }

  lemma {:induction false} AgreeId(q: seq<Node>, index: map<int, Node>, id: int)
    requires Agree(q, index)
    ensures id in index <==> HasId(q, id)
  {
    if id in index {
      var i :| 0 <= i < |q| && q[i] == index[id];
      assert q[i].timer.id == id;
    } else {
      forall i | 0 <= i < |q| ensures q[i].timer.id != id { assert q[i] in q; }
    }
  }

  lemma {:induction false} EraseAgrees(q: seq<Node>, index: map<int, Node>, i: nat)
    requires QueueOk(q) && Agree(q, index) && i < |q|
    ensures Agree(Erase(q, i), index - {q[i].timer.id})
  {
    EraseOk(q, i);
    assert q[i] in q;
  }

  lemma {:induction false} EmplaceAgrees(q: seq<Node>, index: map<int, Node>, t: Timer)
    requires QueueOk(q) && Agree(q, index) && t.Armed() && !HasId(q, t.id)
    ensures Agree(Emplace(q, t), index[t.id := Node(t.expiry, t)])
  {
    EmplaceOk(q, t);
    AgreeId(q, index, t.id);
  }

  // ---------------------------------------------------------------- a pass

  /** The queue, and the position of the loop's iterator in it. */
  datatype Cursor = Cursor(q: seq<Node>, i: nat)

  /** One round of check_and_handle's loop: the timer at the iterator is removed, runs, and goes back
      into the queue if it is to fire again.  The iterator stays at the entry behind the removed one,
      so a timer that comes back in front of that entry is not met again. */
  function Round(c: Cursor): Cursor
    requires c.i < |c.q|
  {
    var rest, t := Erase(c.q, c.i), Ran(c.q[c.i].timer);
    if t.repeats == 0 then Cursor(rest, c.i)
    else Cursor(Emplace(rest, t), if UpperBound(rest, t.expiry) <= c.i then c.i + 1 else c.i)
  }

  predicate Due(c: Cursor, now: int) {
    c.i < |c.q| && c.q[c.i].timer.IsExpired(now)
  }

  predicate CursorOk(c: Cursor) {
    c.i <= |c.q| && QueueOk(c.q)
  }

  lemma {:induction false} RoundOk(c: Cursor)
    requires CursorOk(c) && c.i < |c.q|
    ensures CursorOk(Round(c))
  {
    EraseOk(c.q, c.i);
    var rest, t := Erase(c.q, c.i), Ran(c.q[c.i].timer);
    RanArmed(c.q[c.i].timer);
    if t.repeats != 0 { EmplaceOk(rest, t); }
  }

  /** Which entries the round leaves. */
  lemma {:induction false} RoundMembers(c: Cursor)
    requires CursorOk(c) && c.i < |c.q|
    ensures var u, t := c.q[c.i], Ran(c.q[c.i].timer);
            forall n :: n in Round(c).q <==> (n in c.q && n != u) || (t.repeats != 0 && n == Node(t.expiry, t))
  {
    EraseOk(c.q, c.i);
    var rest, t := Erase(c.q, c.i), Ran(c.q[c.i].timer);
    RanArmed(c.q[c.i].timer);
    if t.repeats != 0 { EmplaceOk(rest, t); }
  }

  /** What the loop has done after at most n rounds: where it is, and the timers that have fired, as
      they were. */
  datatype Outcome = Outcome(c: Cursor, fired: seq<Timer>)

  function After(c: Cursor, now: int, n: nat): Outcome
    decreases n
  {
    if n == 0 || !Due(c, now) then Outcome(c, [])
    else
      var r := After(Round(c), now, n - 1);
      Outcome(r.c, [c.q[c.i].timer] + r.fired)
  }

  lemma {:induction false} AfterOk(c: Cursor, now: int, n: nat)
    requires CursorOk(c)
    ensures CursorOk(After(c, now, n).c)
    decreases n
  {
    if n > 0 && Due(c, now) {
      RoundOk(c);
      AfterOk(Round(c), now, n - 1);
    }
  }

  /** The loop ends within n rounds. */
  predicate Stops(c: Cursor, now: int, n: nat) {
    !Due(After(c, now, n).c, now)
  }

  ghost predicate Ends(c: Cursor, now: int) {
    exists n: nat :: Stops(c, now, n)
  }

  /** A whole pass. */
  ghost function Pass(c: Cursor, now: int): Outcome
    requires Ends(c, now)
  {
    var n: nat :| Stops(c, now, n);
    After(c, now, n)
  }

  lemma {:induction false} AfterSame(c: Cursor, now: int, m: nat, n: nat)
    requires Stops(c, now, m) && Stops(c, now, n)
    ensures After(c, now, m) == After(c, now, n)
    decreases m
  {
    if Due(c, now) { AfterSame(Round(c), now, m - 1, n - 1); }
  }

  /** Any number of rounds that is enough gives the pass. */
  lemma {:induction false} PassIs(c: Cursor, now: int, n: nat)
    requires Stops(c, now, n)
    ensures Ends(c, now) && Pass(c, now) == After(c, now, n)
  {
    var m: nat :| Stops(c, now, m) && Pass(c, now) == After(c, now, m);
    AfterSame(c, now, m, n);
  }

  lemma {:induction false} AfterAfter(c: Cursor, now: int, m: nat, n: nat)
    ensures After(c, now, m + n).c == After(After(c, now, m).c, now, n).c
    decreases m
  {
    if m > 0 && Due(c, now) { AfterAfter(Round(c), now, m - 1, n); }
  }

  /** One more round at the end. */
  lemma {:induction false} AfterNext(c: Cursor, now: int, k: nat)
    ensures var r := After(c, now, k);
            Due(r.c, now) ==> After(c, now, k + 1) == Outcome(Round(r.c), r.fired + [r.c.q[r.c.i].timer])
    decreases k
  {
    if k > 0 && Due(c, now) { AfterNext(Round(c), now, k - 1); }
  }

  lemma AfterShort(c: Cursor, now: int, k: nat, rounds: nat)
    requires Stops(c, now, rounds) && k <= rounds && Due(After(c, now, k).c, now)
    ensures k < rounds
  {
  }

  // ---------------------------------------------------------------- what fires

  /** Nothing fires early, not even in a loop that does not end. */
  lemma {:induction false} AfterDue(c: Cursor, now: int, n: nat)
    ensures forall t | t in After(c, now, n).fired :: t.expiry <= now
    decreases n
  {
    if n > 0 && Due(c, now) { AfterDue(Round(c), now, n - 1); }
  }

  lemma {:induction false} AfterFirst(c: Cursor, now: int, n: nat)
    ensures After(c, now, n).fired != [] ==> c.i < |c.q| && After(c, now, n).fired[0] == c.q[c.i].timer
  {
  }

  /** The entry the iterator gets to next was already behind it, so expiries do not go back. */
  lemma {:induction false} RoundAscends(c: Cursor)
    requires CursorOk(c) && c.i < |c.q| && Round(c).i < |Round(c).q|
    ensures Round(c).q[Round(c).i].key >= c.q[c.i].key
  {
    var rest, t := Erase(c.q, c.i), Ran(c.q[c.i].timer);
    RanArmed(c.q[c.i].timer);
    BoundSplits(rest, t.expiry);
    assert c.i < |rest| ==> rest[c.i] == c.q[c.i + 1];
  }

  lemma {:induction false} OrderCons(t: Timer, ts: seq<Timer>)
    requires ts != [] && t.expiry <= ts[0].expiry && forall i, j | 0 <= i < j < |ts| :: ts[i].expiry <= ts[j].expiry
    ensures var all := [t] + ts; forall i, j | 0 <= i < j < |all| :: all[i].expiry <= all[j].expiry
  {
    var all := [t] + ts;
    forall i, j | 0 <= i < j < |all| ensures all[i].expiry <= all[j].expiry {
      if i > 0 {
        assert ts[i - 1].expiry <= ts[j - 1].expiry;
      } else if j > 1 {
        assert ts[0].expiry <= ts[j - 1].expiry;
      }
    }
  }

  /** Timers fire in the order of their expiries. */
  lemma {:induction false} AfterOrder(c: Cursor, now: int, n: nat)
    requires CursorOk(c)
    ensures var fired := After(c, now, n).fired; forall i, j | 0 <= i < j < |fired| ::
            fired[i].expiry <= fired[j].expiry
    decreases n
  {
    if n > 0 && Due(c, now) {
      RoundOk(c);
      AfterOrder(Round(c), now, n - 1);
      var more := After(Round(c), now, n - 1).fired;
      if more != [] {
        RoundAscends(c);
        AfterFirst(Round(c), now, n - 1);
        OrderCons(c.q[c.i].timer, more);
      }
    }
  }

  /** An entry behind the iterator stays behind it, or is the next one. */
  lemma {:induction false} RoundKeeps(c: Cursor, j: nat) returns (k: nat)
    requires CursorOk(c) && c.i < j < |c.q|
    ensures Round(c).i <= k < |Round(c).q| && Round(c).q[k] == c.q[j]
  {
    var rest, t := Erase(c.q, c.i), Ran(c.q[c.i].timer);
    assert rest[j - 1] == c.q[j];
    if t.repeats == 0 {
      k := j - 1;
    } else {
      var b := UpperBound(rest, t.expiry);
      k := if b <= j - 1 then j else j - 1;
      assert Round(c).q[k] == c.q[j];
    }
  }

  lemma {:induction false} AfterFires(c: Cursor, now: int, n: nat, j: nat)
    requires CursorOk(c) && Stops(c, now, n) && c.i <= j < |c.q| && c.q[j].timer.expiry <= now
    ensures c.q[j].timer in After(c, now, n).fired
    decreases n
  {
    assert c.q[c.i].key <= c.q[j].key;
    assert Due(c, now);
    RoundOk(c);
    if j > c.i {
      var k := RoundKeeps(c, j);
      AfterFires(Round(c), now, n - 1, k);
    }
  }

  /** Every timer that is due when a pass starts fires in it. */
  lemma {:induction false} PassFires(c: Cursor, now: int, j: nat)
    requires CursorOk(c) && Ends(c, now) && c.i <= j < |c.q| && c.q[j].timer.expiry <= now
    ensures c.q[j].timer in Pass(c, now).fired
  {
    var n: nat :| Stops(c, now, n);
    PassIs(c, now, n);
    AfterFires(c, now, n, j);
  }

  /** The firings of the timer with this id. */
  function OfId(fired: seq<Timer>, id: int): seq<Timer> {
    if fired == [] then [] else if fired[0].id == id then [fired[0]] + OfId(fired[1..], id) else OfId(fired[1..], id)
  }

  lemma {:induction false} OfIdBoth(a: seq<Timer>, b: seq<Timer>, id: int)
    ensures OfId(a + b, id) == OfId(a, id) + OfId(b, id)
    decreases |a|
  {
    if a == [] {
      assert a + b == b;
    } else {
      assert (a + b)[1..] == a[1..] + b;
      OfIdBoth(a[1..], b, id);
    }
  }

  /** The queue holds this timer, or none with its id if it is spent. */
  ghost predicate Holds(q: seq<Node>, t: Timer) {
    if t.repeats == 0 then !HasId(q, t.id) else Node(t.expiry, t) in q
  }

  lemma {:induction false} HoldsRound(c: Cursor, t: Timer)
    requires CursorOk(c) && c.i < |c.q| && Holds(c.q, t)
    ensures if c.q[c.i].timer.id == t.id then c.q[c.i].timer == t && t.repeats != 0
            && Holds(Round(c).q, Ran(t)) else Holds(Round(c).q, t)
  {
    RoundOk(c);
    RoundMembers(c);
    var u := c.q[c.i].timer;
    if u.id == t.id {
      assert HasId(c.q, t.id);
      assert u == t;
      EraseOk(c.q, c.i);
    } else if t.repeats == 0 {
      forall j | 0 <= j < |Round(c).q| ensures Round(c).q[j].timer.id != t.id { assert Round(c).q[j] in Round(c).q; }
    }
  }

  lemma {:induction false} OfIdCons(t: Timer, more: seq<Timer>, id: int)
    ensures OfId([t] + more, id) == if t.id == id then [t] + OfId(more, id) else OfId(more, id)
  {
    assert ([t] + more)[1..] == more;
  }

  /** The history of one timer: its firings are the timer itself, then as it is after one firing, and
      so on; and what the queue holds is the timer as it is for the next one. */
  ghost predicate Fired(t: Timer, fired: seq<Timer>, q: seq<Node>) {
    var mine := OfId(fired, t.id);
    mine == Firings(t, |mine|) && Holds(q, Iterate(t, |mine|)) && (t.repeats >= 0 ==> |mine| <= t.repeats)
  }

  lemma {:induction false} FiredOnce(t: Timer, more: seq<Timer>, q: seq<Node>)
    requires t.repeats != 0 && Fired(Ran(t), more, q)
    ensures Fired(t, [t] + more, q)
  {
    OfIdCons(t, more, t.id);
    var k := |OfId(more, t.id)|;
    assert Firings(t, k + 1) == [t] + Firings(Ran(t), k);
    assert Iterate(t, k + 1) == Iterate(Ran(t), k);
  }

  lemma {:induction false} FiredOther(t: Timer, u: Timer, more: seq<Timer>, q: seq<Node>)
    requires u.id != t.id && Fired(t, more, q)
    ensures Fired(t, [u] + more, q)
  {
    OfIdCons(u, more, t.id);
  }

  lemma {:induction false} AfterIterates(c: Cursor, now: int, n: nat, t: Timer)
    requires CursorOk(c) && Holds(c.q, t)
    ensures Fired(t, After(c, now, n).fired, After(c, now, n).c.q)
  {
    var r := Iterates(c, now, n, t);
  }

  lemma {:induction false} Iterates(c: Cursor, now: int, n: nat, t: Timer) returns (r: Outcome)
    requires CursorOk(c) && Holds(c.q, t)
    ensures r == After(c, now, n) && Fired(t, r.fired, r.c.q)
    decreases n
  {
    if n > 0 && Due(c, now) {
      var u, t' := c.q[c.i].timer, if c.q[c.i].timer.id == t.id then Ran(t) else t;
      RoundOk(c);
      HoldsRound(c, t);
      var r' := Iterates(Round(c), now, n - 1, t');
      if u.id == t.id { FiredOnce(t, r'.fired, r'.c.q); } else { FiredOther(t, u, r'.fired, r'.c.q); }
      r := Outcome(r'.c, [u] + r'.fired);
    } else {
      r := Outcome(c, []);
      FiredNone(t, c.q);
    }
  }

  lemma FiredNone(t: Timer, q: seq<Node>)
    requires Holds(q, t)
    ensures Fired(t, [], q)
  {
  }

  // ---------------------------------------------------------------- runs of the manager

  datatype Op = Add(timer: Timer) | MarkDelete(id: int) | CheckAndHandle(now: int)

  /** What add does to the queue. */
  function Added(q: seq<Node>, t: Timer): seq<Node> {
    if t.Armed() then Emplace(Without(q, t.id), t) else q
  }

  /** A check that comes back. */
  ghost predicate Possible(q: seq<Node>, op: Op) {
    op.CheckAndHandle? ==> Ends(Cursor(q, 0), op.now)
  }

  datatype Trace = Trace(q: seq<Node>, fired: seq<Timer>)

  ghost function Step(q: seq<Node>, op: Op): Trace
    requires Possible(q, op)
  {
    match op
    case Add(t) => Trace(Added(q, t), [])
    case MarkDelete(id) => Trace(Without(q, id), [])
    case CheckAndHandle(now) => var r := Pass(Cursor(q, 0), now); Trace(r.c.q, r.fired)
  }

  /** Every operation keeps the queue in order. */
  lemma {:induction false} StepOk(q: seq<Node>, op: Op)
    requires QueueOk(q) && Possible(q, op)
    ensures QueueOk(Step(q, op).q)
  {
    match op
    case Add(t) =>
      WithoutOk(q, t.id);
      if t.Armed() { EmplaceOk(Without(q, t.id), t); }
    case MarkDelete(id) => WithoutOk(q, id);
    case CheckAndHandle(now) =>
      var n: nat :| Stops(Cursor(q, 0), now, n);
      PassIs(Cursor(q, 0), now, n);
      AfterOk(Cursor(q, 0), now, n);
  }

  ghost predicate AllPossible(q: seq<Node>, ops: seq<Op>)
    decreases |ops|
  {
    ops == [] || (Possible(q, ops[0]) && AllPossible(Step(q, ops[0]).q, ops[1..]))
  }

  ghost function Replay(q: seq<Node>, ops: seq<Op>): Trace
    requires AllPossible(q, ops)
    decreases |ops|
  {
    if ops == [] then Trace(q, [])
    else
      var r := Step(q, ops[0]);
      var more := Replay(r.q, ops[1..]);
      Trace(more.q, r.fired + more.fired)
  }

  /** Neither replaces nor deletes the timer with this id. */
  predicate LeavesAlone(op: Op, id: int) {
    match op
    case Add(t) => t.id != id || !Accepts(t.repeats, t.interval)
    case MarkDelete(x) => x != id
    case CheckAndHandle(_) => true
  }

  lemma {:induction false} StepIterates(q: seq<Node>, op: Op, t: Timer)
    requires QueueOk(q) && Possible(q, op) && Holds(q, t) && LeavesAlone(op, t.id)
    ensures Fired(t, Step(q, op).fired, Step(q, op).q)
  {
    if op.CheckAndHandle? {
      var n: nat :| Stops(Cursor(q, 0), op.now, n);
      PassIs(Cursor(q, 0), op.now, n);
      AfterIterates(Cursor(q, 0), op.now, n, t);
    } else {
      HoldsMembers(q, op, t);
      FiredNone(t, Step(q, op).q);
    }
  }

  lemma {:induction false} HoldsMembers(q: seq<Node>, op: Op, t: Timer)
    requires QueueOk(q) && Possible(q, op) && Holds(q, t) && LeavesAlone(op, t.id) && !op.CheckAndHandle?
    ensures Holds(Step(q, op).q, t)
  {
    var q', id := Step(q, op).q, if op.Add? then op.timer.id else op.id;
    WithoutOk(q, id);
    if op.Add? && op.timer.Armed() { EmplaceOk(Without(q, id), op.timer); }
    if t.repeats == 0 {
      forall j | 0 <= j < |q'| ensures q'[j].timer.id != t.id { assert q'[j] in q'; }
    }
  }

  /** Over every run in which nothing replaces or deletes it, a timer fires as `Fired` says. */
  lemma {:induction false} RunIterates(q: seq<Node>, ops: seq<Op>, t: Timer)
    requires QueueOk(q) && AllPossible(q, ops) && Holds(q, t) && forall op | op in ops :: LeavesAlone(op, t.id)
    ensures Fired(t, Replay(q, ops).fired, Replay(q, ops).q)
    decreases |ops|
  {
    if ops != [] {
      StepOk(q, ops[0]);
      StepIterates(q, ops[0], t);
      var r := Step(q, ops[0]);
      var a := |OfId(r.fired, t.id)|;
      IterateKeeps(t, a);
      RunIterates(r.q, ops[1..], Iterate(t, a));
      OfIdBoth(r.fired, Replay(r.q, ops[1..]).fired, t.id);
      FiringsBoth(t, a, |OfId(Replay(r.q, ops[1..]).fired, t.id)|);
    }
  }

  /** What the firings of a new timer have to be. */
  ghost predicate OnTime(id: int, start: int, repeats: int, interval: int, r: Trace) {
    var mine := OfId(r.fired, id);
    && (forall k | 1 <= k <= |mine| :: mine[k - 1].expiry == Clock(start + k * interval))
    && (repeats != REPEAT_INFINITE ==> |mine| <= repeats)
    && (HasId(r.q, id) <==> repeats == REPEAT_INFINITE || |mine| < repeats)
  }

  lemma {:induction false} FiredOnTime(id: int, start: int, repeats: int, interval: int, r: Trace)
    requires 0 <= start <= UINT64_MAX && 0 <= interval <= UINT64_MAX && Accepts(repeats, interval)
    requires Fired(NewTimer(id, start, repeats, interval), r.fired, r.q)
    ensures OnTime(id, start, repeats, interval, r)
  {
    var t, mine := NewTimer(id, start, repeats, interval), OfId(r.fired, id);
    forall k | 1 <= k <= |mine| ensures mine[k - 1].expiry == Clock(start + k * interval) {
      FiringsAt(t, |mine|, k - 1);
      FiringTime(id, start, repeats, interval, k);
    }
    IterateKeeps(t, |mine|);
    if repeats == REPEAT_INFINITE || |mine| < repeats {
      IterateTime(t, |mine|);
    }
  }

  /** Over every run after a timer was added and until it is replaced or deleted, its k-th firing is at
      its start plus k intervals, as far as the clock goes; it fires no more often than it is to be
      repeated, and is in the queue until then. */
  lemma {:induction false} RunOnTime(q: seq<Node>, ops: seq<Op>, id: int, start: int, repeats: int, interval: int)
    requires 0 <= start <= UINT64_MAX && 0 <= interval <= UINT64_MAX && Accepts(repeats, interval) && QueueOk(q)
    requires AllPossible(Added(q, NewTimer(id, start, repeats, interval)), ops)
             && forall op | op in ops :: LeavesAlone(op, id)
    ensures OnTime(id, start, repeats, interval, Replay(Added(q, NewTimer(id, start, repeats, interval)), ops))
  {
    var t := NewTimer(id, start, repeats, interval);
    AcceptedIff(id, start, repeats, interval);
    WithoutOk(q, id);
    EmplaceOk(Without(q, id), t);
    RunIterates(Added(q, t), ops, t);
    FiredOnTime(id, start, repeats, interval, Replay(Added(q, t), ops));
  }

  /** A new timer that is due already fires in the next pass, also without an interval. */
  lemma {:induction false} AddedFires(q: seq<Node>, id: int, start: int, repeats: int, interval: int, now: int)
    requires 0 <= start <= UINT64_MAX && 0 <= interval <= UINT64_MAX && Accepts(repeats, interval) && QueueOk(q)
    requires start + interval <= now <= UINT64_MAX
    requires Ends(Cursor(Added(q, NewTimer(id, start, repeats, interval)), 0), now)
    ensures var t := NewTimer(id, start, repeats, interval); t in Pass(Cursor(Added(q, t), 0), now).fired
  {
    var t := NewTimer(id, start, repeats, interval);
    AcceptedIff(id, start, repeats, interval);
    WithoutOk(q, id);
    EmplaceOk(Without(q, id), t);
    var q' := Added(q, t);
    assert Node(t.expiry, t) in q';
    var j :| 0 <= j < |q'| && q'[j] == Node(t.expiry, t);
    PassFires(Cursor(q', 0), now, j);
  }

  // ---------------------------------------------------------------- the loop ends before the end of time

  /** The sum of a measure over the entries. */
  function Total(q: seq<Node>, size: Node -> nat): nat {
    if q == [] then 0 else size(q[0]) + Total(q[1..], size)
  }

  lemma {:induction false} TotalBoth(a: seq<Node>, b: seq<Node>, size: Node -> nat)
    ensures Total(a + b, size) == Total(a, size) + Total(b, size)
    decreases |a|
  {
    if a == [] {
      assert a + b == b;
    } else {
      assert (a + b)[1..] == a[1..] + b;
      TotalBoth(a[1..], b, size);
    }
  }

  lemma {:induction false} TotalInsert(q: seq<Node>, k: nat, n: Node, size: Node -> nat)
    requires k <= |q|
    ensures Total(InsertAt(q, k, n), size) == Total(q, size) + size(n)
  {
    TotalBoth(q[..k] + [n], q[k..], size);
    TotalBoth(q[..k], [n], size);
    TotalBoth(q[..k], q[k..], size);
    assert q[..k] + q[k..] == q;
    assert [n][1..] == [];
  }

  lemma {:induction false} TotalErase(q: seq<Node>, i: nat, size: Node -> nat)
    requires i < |q|
    ensures Total(q, size) == Total(Erase(q, i), size) + size(q[i])
  {
    assert InsertAt(Erase(q, i), i, q[i]) == q;
    TotalInsert(Erase(q, i), i, q[i], size);
  }

  /** How far a timer is from being in the future. */
  function Distance(now: int): Node -> nat {
    (n: Node) => if now >= n.timer.expiry then now + 1 - n.timer.expiry else 0
  }

  function Potential(q: seq<Node>, now: int): nat {
    Total(q, Distance(now))
  }

  /** Every firing takes a timer closer to the future, because intervals are not zero. */
  lemma {:induction false} RoundDescends(c: Cursor, now: int)
    requires CursorOk(c) && Due(c, now) && now < UINT64_MAX
    ensures Potential(Round(c).q, now) < Potential(c.q, now)
  {
    var rest, t := Erase(c.q, c.i), Ran(c.q[c.i].timer);
    TotalErase(c.q, c.i, Distance(now));
    RanArmed(c.q[c.i].timer);
    if t.repeats != 0 { TotalInsert(rest, UpperBound(rest, t.expiry), Node(t.expiry, t), Distance(now)); }
  }

  /** Below the last clock value the loop ends, with no more rounds than that. */
  lemma {:induction false} EndsBefore(c: Cursor, now: int)
    requires CursorOk(c) && now < UINT64_MAX
    ensures Stops(c, now, Potential(c.q, now)) && Ends(c, now) && CursorOk(Pass(c, now).c)
    ensures Potential(Pass(c, now).c.q, now) + |Pass(c, now).fired| <= Potential(c.q, now)
  {
    AfterDescends(c, now, Potential(c.q, now));
    PassIs(c, now, Potential(c.q, now));
    AfterOk(c, now, Potential(c.q, now));
  }

  lemma {:induction false} AfterDescends(c: Cursor, now: int, n: nat)
    requires CursorOk(c) && now < UINT64_MAX
    ensures Potential(After(c, now, n).c.q, now) + |After(c, now, n).fired| <= Potential(c.q, now)
    ensures n >= Potential(c.q, now) ==> Stops(c, now, n)
    decreases n
  {
    if Due(c, now) {
      RoundOk(c);
      RoundDescends(c, now);
      if n > 0 {
        AfterDescends(Round(c), now, n - 1);
        var r := After(Round(c), now, n - 1);
        assert After(c, now, n) == Outcome(r.c, [c.q[c.i].timer] + r.fired);
      }
    }
  }

  /** Passes with the same time, one after the other. */
  ghost function Passes(q: seq<Node>, now: int, n: nat): seq<Node>
    requires QueueOk(q) && now < UINT64_MAX
    decreases n
  {
    if n == 0 then q
    else
      EndsBefore(Cursor(q, 0), now);
      Passes(Pass(Cursor(q, 0), now).c.q, now, n - 1)
  }

  predicate NothingDue(q: seq<Node>, now: int) {
    forall i | 0 <= i < |q| :: now < q[i].timer.expiry
  }

  lemma {:induction false} PassDescends(q: seq<Node>, now: int, n: nat)
    requires QueueOk(q) && now < UINT64_MAX && n >= Potential(q, now)
    ensures Ends(Cursor(q, 0), now)
    ensures QueueOk(Pass(Cursor(q, 0), now).c.q)
    ensures if n == 0 then NothingDue(q, now) else n - 1 >= Potential(Pass(Cursor(q, 0), now).c.q, now)
  {
    var c := Cursor(q, 0);
    EndsBefore(c, now);
    if NothingDue(q, now) {
      Quiet(q, now);
      PassIs(c, now, 0);
    } else {
      var j :| 0 <= j < |q| && q[j].timer.expiry <= now;
      PassFires(c, now, j);
    }
  }

  lemma {:induction false} Quiet(q: seq<Node>, now: int)
    requires NothingDue(q, now)
    ensures Potential(q, now) == 0
    decreases |q|
  {
    if q != [] { Quiet(q[1..], now); }
  }

  /** After enough passes nothing is due any more. */
  lemma {:induction false} PassesSettle(q: seq<Node>, now: int, n: nat)
    requires QueueOk(q) && now < UINT64_MAX && n >= Potential(q, now)
    ensures NothingDue(Passes(q, now, n), now)
    decreases n
  {
    PassDescends(q, now, n);
    if n > 0 { PassesSettle(Pass(Cursor(q, 0), now).c.q, now, n - 1); }
  }

  // ---------------------------------------------------------------- at the end of time

  /** An entry that is due for ever when the clock is at its last value. */
  predicate Eternal(n: Node) {
    n.key == UINT64_MAX && n.timer.repeats == REPEAT_INFINITE
  }

  predicate EternalAt(c: Cursor, a: int, b: int) {
    c.i <= a < b < |c.q| && Eternal(c.q[a]) && Eternal(c.q[b])
  }

  /** Two such entries are at or behind the iterator. */
  ghost predicate TwoEternal(c: Cursor) {
    exists a, b :: EternalAt(c, a, b)
  }

  /** An entry that fires at the end of time goes to the end of the queue. */
  lemma {:induction false} RoundAtLast(c: Cursor)
    requires CursorOk(c) && c.i < |c.q| && Eternal(c.q[c.i])
    ensures var c', n := Round(c), |c.q|;
            |c'.q| == n && c'.q[n - 1] == Node(UINT64_MAX, c.q[c.i].timer)
                && (c.i < n - 1 ==> c'.i == c.i && c'.q[c.i] == c.q[c.i + 1])
            && (c.i == n - 1 ==> c'.i == n)
  {
    var rest, t := Erase(c.q, c.i), Ran(c.q[c.i].timer);
    assert t == c.q[c.i].timer;
    assert UpperBound(rest, UINT64_MAX) == |rest| by {
      BoundSplits(rest, UINT64_MAX);
      assert forall n | n in rest :: n.key <= UINT64_MAX by { EraseOk(c.q, c.i); }
    }
  }

  /** They still are after the next round. */
  lemma {:induction false} EternalRound(c: Cursor)
    requires CursorOk(c) && TwoEternal(c)
    ensures Due(c, UINT64_MAX) && CursorOk(Round(c)) && TwoEternal(Round(c))
  {
    var a, b :| EternalAt(c, a, b);
    RoundOk(c);
    if c.i == a { EternalFirst(c, b); } else { EternalLater(c, a, b); }
  }

  lemma {:induction false} EternalFirst(c: Cursor, b: int)
    requires CursorOk(c) && EternalAt(c, c.i, b)
    ensures TwoEternal(Round(c))
  {
    RoundAtLast(c);
    var b' := RoundKeeps(c, b);
    assert c.q[b].timer.id != c.q[c.i].timer.id;
    assert EternalAt(Round(c), b', |c.q| - 1);
  }

  lemma {:induction false} EternalLater(c: Cursor, a: int, b: int)
    requires CursorOk(c) && EternalAt(c, a, b) && c.i < a
    ensures TwoEternal(Round(c))
  {
    var a' := RoundKeeps(c, a);
    var b' := RoundKeeps(c, b);
    assert c.q[a].timer.id != c.q[b].timer.id;
    assert if a' < b' then EternalAt(Round(c), a', b') else EternalAt(Round(c), b', a');
  }

  lemma {:induction false} EternalAfter(c: Cursor, n: nat) returns (c': Cursor)
    requires CursorOk(c) && TwoEternal(c)
    ensures c' == After(c, UINT64_MAX, n).c && CursorOk(c') && TwoEternal(c')
    decreases n
  {
    if n == 0 {
      c' := c;
    } else {
      EternalRound(c);
      c' := EternalAfter(Round(c), n - 1);
    }
  }

  /** The loop gets to two such entries. */
  ghost predicate Meets(c: Cursor) {
    exists n: nat :: TwoEternal(After(c, UINT64_MAX, n).c)
  }

  /** At the last clock value it never ends then. */
  lemma {:induction false} NeverEnds(c: Cursor)
    requires CursorOk(c) && Meets(c)
    ensures forall n: nat :: Due(After(c, UINT64_MAX, n).c, UINT64_MAX)
    ensures !Ends(c, UINT64_MAX)
  {
    var m: nat :| TwoEternal(After(c, UINT64_MAX, m).c);
    AfterOk(c, UINT64_MAX, m);
    forall n: nat ensures Due(After(c, UINT64_MAX, n).c, UINT64_MAX) {
      if Stops(c, UINT64_MAX, n) {
        assert m + n == n + m;
        AfterAfter(c, UINT64_MAX, n, m);
        AfterAfter(c, UINT64_MAX, m, n);
        var c' := EternalAfter(After(c, UINT64_MAX, m).c, n);
        EternalRound(c');
      }
    }
  }

  lemma {:induction false} PairQueue(a: Timer, b: Timer)
    requires a.Armed() && b.Armed() && a.id != b.id && a.expiry == b.expiry
    ensures var q := [Node(a.expiry, a), Node(b.expiry, b)]; Added(Added([], a), b) == q && QueueOk(q)
  {
    var q := [Node(a.expiry, a)];
    assert Added([], a) == q;
    assert q[1..] == [];
    assert UpperBound(q, b.expiry) == 1;
    assert Without(q, b.id) == q;
  }

  /** Two infinite timers whose expiry has reached the end of the clock. */
  lemma {:induction false} EternalPair(now: int, interval: int)
    requires 0 <= now <= UINT64_MAX && UINT64_MAX - now < interval <= UINT64_MAX
    ensures var a, b := NewTimer(1, now, REPEAT_INFINITE, interval), NewTimer(2, now, REPEAT_INFINITE, interval);
            var c := Cursor(Added(Added([], a), b), 0);
            CursorOk(c) && TwoEternal(c) && !Ends(c, UINT64_MAX)
  {
    var a, b := NewTimer(1, now, REPEAT_INFINITE, interval), NewTimer(2, now, REPEAT_INFINITE, interval);
    PairQueue(a, b);
    var c := Cursor(Added(Added([], a), b), 0);
    assert EternalAt(c, 0, 1);
    assert After(c, UINT64_MAX, 0).c == c;
    NeverEnds(c);
  }

  /** The loop ends from every state of the manager if and only if the time is not the last one. */
  lemma {:induction false} EndsIff(now: int)
    requires 0 <= now <= UINT64_MAX
    ensures (forall c | CursorOk(c) :: Ends(c, now)) <==> now < UINT64_MAX
    ensures (forall q | QueueOk(q) :: Ends(Cursor(q, 0), now)) <==> now < UINT64_MAX
  {
    if now < UINT64_MAX {
      forall c | CursorOk(c) ensures Ends(c, now) { EndsBefore(c, now); }
    } else {
      EternalPair(now, 1);
    }
  }

  /** How much a timer can still move before it is eternal or gone. */
  function Moves(n: Node): nat {
    if n.timer.repeats == REPEAT_INFINITE then (if n.timer.expiry <= UINT64_MAX then UINT64_MAX - n.timer.expiry else 0)
    else if n.timer.repeats >= 0 then n.timer.repeats else 0
  }

  function Infinite(n: Node): nat {
    if n.timer.repeats == REPEAT_INFINITE then 1 else 0
  }

  /** What is at or behind the iterator: the entry that fires leaves it, or comes back into it. */
  lemma {:induction false} RoundBehind(c: Cursor, size: Node -> nat)
    requires CursorOk(c) && c.i < |c.q|
    ensures var t, s, s' := Ran(c.q[c.i].timer), c.q[c.i..], Round(c).q[Round(c).i..];
            Total(s', size) <= Total(s, size) - size(c.q[c.i]) + (if t.repeats != 0 then size(Node(t.expiry, t)) else 0)
  {
    var rest, t := Erase(c.q, c.i), Ran(c.q[c.i].timer);
    var more := c.q[c.i + 1..];
    assert c.q[c.i..] == [c.q[c.i]] + more && rest[c.i..] == more;
    var k, n := UpperBound(rest, t.expiry), Node(t.expiry, t);
    if t.repeats != 0 {
      InsertBehind(rest, c.i, k, n);
      if k > c.i { TotalInsert(more, k - c.i, n, size); }
    }
  }

  lemma {:induction false} InsertBehind(q: seq<Node>, i: nat, k: nat, n: Node)
    requires i <= |q| && k <= |q|
    ensures k > i ==> InsertAt(q, k, n)[i..] == InsertAt(q[i..], k - i, n)
    ensures k <= i ==> InsertAt(q, k, n)[i + 1..] == q[i..]
  {
  }

  function Weight(c: Cursor): nat
    requires c.i <= |c.q|
  {
    2 * Total(c.q[c.i..], Moves) + if c.i < |c.q| && Eternal(c.q[c.i]) then 1 else 0
  }

  /** A round makes progress unless it takes the loop from one eternal entry to another. */
  lemma {:induction false} WeightDescends(c: Cursor)
    requires CursorOk(c) && c.i < |c.q| && !TwoEternal(c)
    ensures CursorOk(Round(c)) && Weight(Round(c)) < Weight(c)
  {
    RoundOk(c);
    RoundBehind(c, Moves);
    RanArmed(c.q[c.i].timer);
    if Eternal(c.q[c.i]) { EternalLeaves(c); }
  }

  lemma {:induction false} EternalLeaves(c: Cursor)
    requires CursorOk(c) && c.i < |c.q| && !TwoEternal(c) && Eternal(c.q[c.i])
    ensures Round(c).i < |Round(c).q| ==> !Eternal(Round(c).q[Round(c).i])
  {
    RoundAtLast(c);
    assert !EternalAt(c, c.i, c.i + 1);
  }

  lemma {:induction false} EndsUnless(c: Cursor) returns (n: nat)
    requires CursorOk(c) && !Meets(c)
    ensures Stops(c, UINT64_MAX, n)
    decreases Weight(c)
  {
    n := 0;
    if Due(c, UINT64_MAX) {
      assert !TwoEternal(After(c, UINT64_MAX, 0).c);
      WeightDescends(c);
      forall k: nat ensures !TwoEternal(After(Round(c), UINT64_MAX, k).c) {
        assert After(c, UINT64_MAX, k + 1).c == After(Round(c), UINT64_MAX, k).c;
      }
      n := EndsUnless(Round(c));
      n := n + 1;
    }
  }

  /** At the last clock value the loop ends if and only if it does not get to two eternal entries. */
  lemma {:induction false} EndsAtLast(c: Cursor)
    requires CursorOk(c)
    ensures Ends(c, UINT64_MAX) <==> !Meets(c)
  {
    if Meets(c) {
      NeverEnds(c);
    } else {
      var n := EndsUnless(c);
    }
  }

  lemma {:induction false} TotalTwo(s: seq<Node>, a: nat, b: nat, size: Node -> nat)
    requires a < b < |s|
    ensures Total(s, size) >= size(s[a]) + size(s[b])
  {
    TotalErase(s, b, size);
    TotalErase(Erase(s, b), a, size);
  }

  lemma {:induction false} TwoInfinite(c: Cursor)
    requires TwoEternal(c)
    ensures Total(c.q[c.i..], Infinite) >= 2
  {
    var a, b :| EternalAt(c, a, b);
    TotalTwo(c.q[c.i..], a - c.i, b - c.i, Infinite);
  }

  lemma {:induction false} FewAfter(c: Cursor, now: int, n: nat)
    requires CursorOk(c)
    ensures var c' := After(c, now, n).c; c'.i <= |c'.q| && Total(c'.q[c'.i..], Infinite) <= Total(c.q[c.i..], Infinite)
    decreases n
  {
    if n > 0 && Due(c, now) {
      RoundOk(c);
      RoundBehind(c, Infinite);
      FewAfter(Round(c), now, n - 1);
    }
  }

  /** With at most one infinite timer the loop ends at every time. */
  lemma {:induction false} FewEnd(c: Cursor, now: int)
    requires CursorOk(c) && 0 <= now <= UINT64_MAX && Total(c.q[c.i..], Infinite) <= 1
    ensures Ends(c, now)
  {
    if now < UINT64_MAX {
      EndsBefore(c, now);
    } else {
      forall k: nat ensures !TwoEternal(After(c, UINT64_MAX, k).c) {
        FewAfter(c, now, k);
        if TwoEternal(After(c, UINT64_MAX, k).c) { TwoInfinite(After(c, UINT64_MAX, k).c); }
      }
      EndsAtLast(c);
    }
  }

  // ---------------------------------------------------------------- the manager

  class Manager {
    var queue: seq<Node>
    var index: map<int, Node>

    ghost predicate Valid()
      reads this
    {
      QueueOk(queue) && Agree(queue, index)
    }

    constructor ()
      ensures Valid() && queue == []
    {
      queue, index := [], map[];
    }

    /** The timer with this id leaves the queue and the index. */
    method Remove(id: int)
      requires Valid() && id in index
      modifies this
      ensures Valid() && queue == Without(old(queue), id)
    {
      var i := 0;
      while queue[i] != index[id]
        invariant 0 <= i < |queue| && index[id] in queue[i..]
        decreases |queue| - i
      {
        i := i + 1;
      }
      EraseOk(queue, i);
      EraseAgrees(queue, index, i);
      WithoutErases(queue, i);
      queue := Erase(queue, i);
      index := index - {id};
    }

    /** mark_delete */
    method MarkDelete(id: int)
      requires Valid()
      modifies this
      ensures Valid() && queue == Without(old(queue), id) && !HasId(queue, id)
    {
      AgreeId(queue, index, id);
      WithoutOk(queue, id);
      if id in index {
        Remove(id);
      } else {
        WithoutNone(queue, id);
      }
    }

    /** add: an acceptable timer is stored, in place of one with the same id, if there is one. */
    method Add(t: Timer) returns (stored: bool)
      requires Valid() && 0 <= t.expiry <= UINT64_MAX && 0 <= t.interval <= UINT64_MAX
      modifies this
      ensures Valid() && queue == Added(old(queue), t) && (stored <==> Accepts(t.repeats, t.interval))
      ensures if stored then Node(t.expiry, t) in queue else queue == old(queue) && index == old(index)
    {
      if t.repeats <= 0 && t.repeats != REPEAT_INFINITE { return false; }
      if t.interval == 0 && t.repeats != 1 { return false; }
      MarkDelete(t.id);
      EmplaceOk(queue, t);
      EmplaceAgrees(queue, index, t);
      queue := Emplace(queue, t);
      index := index[t.id := Node(t.expiry, t)];
      stored := true;
    }

    /** One round of check_and_handle's loop, with the iterator at position i. */
    method Handle(i: nat) returns (i': nat, fired: Timer)
      requires Valid() && i < |queue|
      modifies this
      ensures Valid() && i' <= |queue| && fired == old(queue[i].timer)
              && Cursor(queue, i') == Round(old(Cursor(queue, i)))
    {
      EraseOk(queue, i);
      EraseAgrees(queue, index, i);
      fired := queue[i].timer;
      index := index - {fired.id};
      queue := Erase(queue, i);
      i' := i;
      var t := Ran(fired);
      RanArmed(fired);
      if t.repeats != 0 {
        EmplaceOk(queue, t);
        EmplaceAgrees(queue, index, t);
        i' := if UpperBound(queue, t.expiry) <= i then i + 1 else i;
        queue := Emplace(queue, t);
        index := index[t.id := Node(t.expiry, t)];
      }
    }

    /** check_and_handle, with the timers in the order in which they fire.  It is asked for only where
        its loop ends; `EndsIff`, `EndsAtLast` and `FewEnd` say where that is. */
    method CheckAndHandle(now: int) returns (fired: seq<Timer>)
      requires Valid() && Ends(Cursor(queue, 0), now)
      modifies this
      ensures Valid() && Ends(Cursor(old(queue), 0), now)
      ensures Pass(Cursor(old(queue), 0), now).c.q == queue && Pass(Cursor(old(queue), 0), now).fired == fired
    {
      fired := [];
      var i: nat := 0;
      ghost var c0, k := Cursor(queue, 0), 0;
      ghost var rounds: nat :| Stops(c0, now, rounds);
      while i < |queue| && queue[i].timer.IsExpired(now)
        invariant Valid() && i <= |queue|
        invariant 0 <= k <= rounds && After(c0, now, k) == Outcome(Cursor(queue, i), fired)
        decreases rounds - k
      {
        AfterShort(c0, now, k, rounds);
        AfterNext(c0, now, k);
        k := k + 1;
        var t;
        i, t := Handle(i);
        fired := fired + [t];
      }
      PassIs(c0, now, k);
    }

    method Size() returns (n: nat)
      requires Valid()
      ensures n == |queue|
    {
      n := |queue|;
    }

    /** exist looks in the index, and so in the queue. */
    method Exist(id: int) returns (yes: bool)
      requires Valid()
      ensures yes <==> HasId(queue, id)
    {
      AgreeId(queue, index, id);
      yes := id in index;
    }
  }
}
