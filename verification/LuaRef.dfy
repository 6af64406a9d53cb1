/** References to values kept in a table: released slots form a linked list inside the table. */
module LuaRef {
  const LUA_REFNIL := -1

  datatype Value = Nil | False | Number(n: int) | Other(id: int)

  /** What lua_rawlen may return for a table. */
  predicate IsBorder(t: map<int, Value>, n: int) {
    n >= 0 && (n == 0 || n in t) && n + 1 !in t
  }

  /** The slots of `free` are chained in this order, from t[1] to a zero. */
  ghost predicate Chained(t: map<int, Value>, free: seq<int>) {
    && 1 in t && t[1] == Number(Next(free, -1)) && forall i | 0 <= i < |free| :: Link(t, free, i)
  }

  predicate Link(t: map<int, Value>, free: seq<int>, i: int)
    requires 0 <= i < |free|
  {
    free[i] in t && t[free[i]] == Number(Next(free, i))
  }

  function Next(free: seq<int>, i: int): int
    requires -1 <= i < |free|
  {
    if i + 1 < |free| then free[i + 1] else 0
  }

  /** The slots behind the first one are exactly the live and the free ones. */
  ghost predicate Split(live: map<int, Value>, free: seq<int>, n: int) {
    && (forall i, j | 0 <= i < j < |free| :: free[i] != free[j])
    && (forall i | 0 <= i < |free| :: 2 <= free[i] <= n && free[i] !in live)
    && (forall r | r in live :: 2 <= r <= n && live[r] != Nil)
    && (forall r | 2 <= r <= n && r !in live :: r in free)
    && |live| + |free| == n - 1
  }

  /** A table in use: t[1] heads the free list, which is acyclic and covers exactly the released
      slots, live slots hold their values, and `peak` references fit. */
  ghost predicate Holds(t: map<int, Value>, live: map<int, Value>, free: seq<int>, peak: nat) {
    && Chained(t, free) && Split(live, free, peak + 1)
    && (forall k :: k in t <==> 1 <= k <= peak + 1)
    && (forall r | r in live :: t[r] == live[r])
  }

  /** A table before its first use: empty, or with false in front of n values that were put there
      directly, as in the registry. */
  ghost predicate Untouched(t: map<int, Value>, n: nat) {
    || (t == map[] && n == 0)
    || ((forall k :: k in t <==> 1 <= k <= n + 1) && |t| == n + 1 && t[1] == False && forall k | k in t :: t[k] != Nil)
  }

  lemma {:induction false} FirstSplit(t: map<int, Value>, n: nat)
    requires t != map[] && Untouched(t, n)
    ensures Split(t - {1}, [], n + 1)
  {
    assert t == (t - {1})[1 := False];
    forall r | 2 <= r <= n + 1 ensures r in t - {1} { assert r in t; }
  }

  lemma {:induction false} FirstUse(t: map<int, Value>, n: nat)
    requires Untouched(t, n)
    ensures Holds(t[1 := Number(0)], t - {1}, [], n)
  {
    if t == map[] {
      assert t - {1} == map[];
    } else {
      FirstSplit(t, n);
      assert forall k :: k in t[1 := Number(0)] <==> k in t;
    }
  }

  /** The registry: false, and these values behind it. */
  function InitRegistry(preset: seq<Value>): map<int, Value> {
    if preset == [] then map[1 := False]
    else InitRegistry(preset[..|preset| - 1])[|preset| + 1 := preset[|preset| - 1]]
  }

  lemma {:induction false} RegistryUntouched(preset: seq<Value>)
    requires forall i | 0 <= i < |preset| :: preset[i] != Nil
    ensures Untouched(InitRegistry(preset), |preset|) && 1 in InitRegistry(preset)
    ensures forall i | 2 <= i < |preset| + 2 :: InitRegistry(preset)[i] == preset[i - 2]
    decreases |preset|
  {
    if preset != [] {
      var n := |preset| - 1;
      var before := InitRegistry(preset[..n]);
      RegistryUntouched(preset[..n]);
      assert n + 2 !in before && |before[n + 2 := preset[n]]| == |before| + 1;
      assert forall i | 2 <= i < n + 2 :: before[i] == preset[i - 2];
    }
  }

  /** The table's length is unambiguous. */
  lemma {:induction false} OneBorder(t: map<int, Value>, live: map<int, Value>, free: seq<int>, peak: nat, n: int)
    requires Holds(t, live, free, peak)
    ensures IsBorder(t, n) <==> n == peak + 1
  {
  }

  lemma {:induction false} TakeSplit(live: map<int, Value>, free: seq<int>, n: int, v: Value)
    requires Split(live, free, n) && free != [] && v != Nil
    ensures Split(live[free[0] := v], free[1..], n)
  {
    assert forall i | 0 <= i < |free[1..]| :: free[1..][i] == free[i + 1];
    assert forall k | k in free :: k == free[0] || k in free[1..];
    assert |live[free[0] := v]| == |live| + 1;
  }

  lemma {:induction false} TakeChain(t: map<int, Value>, free: seq<int>, v: Value)
    requires Chained(t, free) && free != [] && 1 !in free && forall i, j | 0 <= i < j < |free| :: free[i] != free[j]
    ensures free[0] in t && Chained(t[1 := t[free[0]]][free[0] := v], free[1..])
  {
    assert Link(t, free, 0) && free[0] in free;
    var t', free' := t[1 := t[free[0]]][free[0] := v], free[1..];
    forall i | 0 <= i < |free'| ensures Link(t', free', i) {
      assert Link(t, free, i + 1) && free'[i] == free[i + 1] && free[i + 1] in free;
    }
  }

  lemma {:induction false} TakeFree(t: map<int, Value>, live: map<int, Value>, free: seq<int>, peak: nat, v: Value)
    requires Holds(t, live, free, peak) && free != [] && v != Nil
    ensures var r := free[0];
            && r >= 2 && r !in live && t[1] == Number(r) && r in t
               && Holds(t[1 := t[r]][r := v], live[r := v], free[1..], peak)
            && |live[r := v]| <= peak
  {
    TakeSplit(live, free, peak + 1, v);
    TakeChain(t, free, v);
  }

  lemma {:induction false} TakeNew(t: map<int, Value>, live: map<int, Value>, peak: nat, v: Value)
    requires Holds(t, live, [], peak) && v != Nil
    ensures var r := peak + 2;
            && r !in live && t[1] == Number(0) && Holds(t[r := v], live[r := v], [], peak + 1)
            && |live[r := v]| == peak + 1
  {
    var r := peak + 2;
    assert |live[r := v]| == |live| + 1;
  }

  lemma {:induction false} GiveSplit(live: map<int, Value>, free: seq<int>, n: int, r: int)
    requires Split(live, free, n) && r in live
    ensures Split(live - {r}, [r] + free, n)
  {
    assert |live - {r}| == |live| - 1 by { assert live == (live - {r})[r := live[r]]; }
    assert forall k | k == r || k in free :: k in [r] + free;
  }

  lemma {:induction false} GiveChain(t: map<int, Value>, free: seq<int>, r: int)
    requires Chained(t, free) && r != 1 && r !in free && 1 !in free
    ensures Chained(t[r := t[1]][1 := Number(r)], [r] + free)
  {
    var t', free' := t[r := t[1]][1 := Number(r)], [r] + free;
    forall i | 0 <= i < |free'| ensures Link(t', free', i) {
      if i > 0 { assert Link(t, free, i - 1) && free'[i] == free[i - 1] && free[i - 1] in free; }
    }
  }

  lemma {:induction false} GiveBack(t: map<int, Value>, live: map<int, Value>, free: seq<int>, peak: nat, r: int)
    requires Holds(t, live, free, peak) && r in live
    ensures r >= 2 && Holds(t[r := t[1]][1 := Number(r)], live - {r}, [r] + free, peak)
  {
    GiveSplit(live, free, peak + 1, r);
    GiveChain(t, free, r);
  }

  lemma {:induction false} GrowSplit(live: map<int, Value>, free: seq<int>, n: int)
    requires Split(live, free, n) && n > 0
    ensures Split(live, [n + 1] + free, n + 1)
  {
    assert forall k | k == n + 1 || k in free :: k in [n + 1] + free;
  }

  lemma {:induction false} GiveNew(t: map<int, Value>, live: map<int, Value>, free: seq<int>, peak: nat)
    requires Holds(t, live, free, peak)
    ensures var r := peak + 2; Holds(t[r := t[1]][1 := Number(r)], live, [r] + free, peak + 1)
  {
    GrowSplit(live, free, peak + 1);
    GiveChain(t, free, peak + 2);
  }

  // ---------------------------------------------------------------- what a caller observes

  function At(t: map<int, Value>, k: int): Value {
    if k in t then t[k] else Nil
  }

  function Put(t: map<int, Value>, k: int, v: Value): map<int, Value> {
    if v == Nil then t - {k} else t[k := v]
  }

  /** luaL_ref on a table in use may return r and leave t': the length is any border. */
  ghost predicate RefStep(t: map<int, Value>, v: Value, r: int, t': map<int, Value>) {
    && 1 in t && t[1].Number?
    && if t[1].n != 0 then r == t[1].n && t' == Put(Put(t, 1, At(t, r)), r, v)
       else IsBorder(t, r - 1) && t' == Put(t, r, v)
  }

  lemma {:induction false} TakeStep(t: map<int, Value>, free: seq<int>, v: Value)
    requires Chained(t, free) && free != [] && free[0] != 0 && v != Nil
    ensures free[0] in t && RefStep(t, v, free[0], t[1 := t[free[0]]][free[0] := v])
  {
    assert Link(t, free, 0);
  }

  lemma {:induction false} NoneFree(t: map<int, Value>, live: map<int, Value>, free: seq<int>, peak: nat)
    requires Holds(t, live, free, peak) && t[1] == Number(0)
    ensures free == []
  {
  }

  /** luaL_unref on a table in use. */
  function Released(t: map<int, Value>, r: int): map<int, Value>
    requires 1 in t
  {
    t[r := t[1]][1 := Number(r)]
  }

  ghost predicate Keeps(t: map<int, Value>, live: map<int, Value>) {
    1 in t && forall k | k in live :: k in t && t[k] == live[k]
  }

  /** Over n more calls, each of which asks for a reference or releases a live one, every live value
      is there, and a new reference is a slot from 2 on that is not live. */
  ghost predicate Serves(t: map<int, Value>, live: map<int, Value>, n: nat)
    decreases n
  {
    && Keeps(t, live)
    && (n > 0 ==>
          forall v, r, t' | v != Nil && RefStep(t, v, r, t') ::
            r >= 2 && r !in live && Serves(t', live[r := v], n - 1))
    && (n > 0 ==> forall r | r in live :: Serves(Released(t, r), live - {r}, n - 1))
  }

  /** What is enough for that: the free list is some list of slots that are not live. */
  ghost predicate Listed(t: map<int, Value>, live: map<int, Value>, free: seq<int>) {
    && Keeps(t, live) && Chained(t, free) && (forall i, j | 0 <= i < j < |free| :: free[i] != free[j])
    && (forall i | 0 <= i < |free| :: free[i] >= 2 && free[i] !in live) && (forall r | r in live :: r >= 2)
  }

  lemma {:induction false} ListedTake(t: map<int, Value>, live: map<int, Value>, free: seq<int>, v: Value)
    requires Listed(t, live, free) && free != [] && v != Nil
    ensures free[0] in t && Listed(t[1 := t[free[0]]][free[0] := v], live[free[0] := v], free[1..])
  {
    TakeChain(t, free, v);
    forall i | 0 <= i < |free[1..]| ensures free[1..][i] >= 2 && free[1..][i] !in live[free[0] := v] {
      assert free[1..][i] == free[i + 1];
    }
  }

  lemma {:induction false} ListedRef(t: map<int, Value>, live: map<int, Value>, free: seq<int>, v: Value, r: int,
                                     t': map<int, Value>)
    requires Listed(t, live, free) && v != Nil && RefStep(t, v, r, t')
    ensures r >= 2 && r !in live && Listed(t', live[r := v], if free == [] then [] else free[1..])
  {
    if free != [] {
      assert Link(t, free, 0) && r == free[0];
      ListedTake(t, live, free, v);
      assert t' == t[1 := t[r]][r := v];
    }
  }

  lemma {:induction false} ListedUnref(t: map<int, Value>, live: map<int, Value>, free: seq<int>, r: int)
    requires Listed(t, live, free) && r in live
    ensures Listed(Released(t, r), live - {r}, [r] + free)
  {
    GiveChain(t, free, r);
  }

  lemma {:induction false} ListedServes(t: map<int, Value>, live: map<int, Value>, free: seq<int>, n: nat)
    requires Listed(t, live, free)
    ensures Serves(t, live, n)
    decreases n
  {
    if n > 0 {
      forall v, r, t' | v != Nil && RefStep(t, v, r, t') ensures r >= 2 && r !in live
             && Serves(t', live[r := v], n - 1) {
        ListedRef(t, live, free, v, r, t');
        ListedServes(t', live[r := v], if free == [] then [] else free[1..], n - 1);
      }
      forall r | r in live ensures Serves(Released(t, r), live - {r}, n - 1) {
        ListedUnref(t, live, free, r);
        ListedServes(Released(t, r), live - {r}, [r] + free, n - 1);
      }
    }
  }

  /** The list leads over these slots to the last of them. */
  ghost predicate Leads(t: map<int, Value>, path: seq<int>) {
    && path != [] && 1 in t && t[1] == Number(path[0])
    && (forall i | 0 <= i < |path| :: path[i] > 1)
    && (forall i, j | 0 <= i < j < |path| :: path[i] != path[j])
    && (forall i | 0 <= i < |path| - 1 :: Link(t, path, i))
  }

  lemma {:induction false} LeadsOn(t: map<int, Value>, path: seq<int>, v: Value)
    requires Leads(t, path) && |path| > 1 && v != Nil
    ensures var t' := Put(Put(t, 1, At(t, path[0])), path[0], v); RefStep(t, v, path[0], t') && Leads(t', path[1..])
  {
    var t', path' := Put(Put(t, 1, At(t, path[0])), path[0], v), path[1..];
    assert Link(t, path, 0);
    forall i | 0 <= i < |path'| - 1 ensures Link(t', path', i) {
      assert Link(t, path, i + 1) && path'[i] == path[i + 1];
    }
  }

  /** A list that leads to a live slot gives it out again. */
  lemma {:induction false} LeadsToLive(t: map<int, Value>, live: map<int, Value>, path: seq<int>)
    requires Leads(t, path) && path[|path| - 1] in live
    ensures !Serves(t, live, |path|)
    decreases |path|
  {
    var v := Other(0);
    var t' := Put(Put(t, 1, At(t, path[0])), path[0], v);
    assert RefStep(t, v, path[0], t');
    if |path| > 1 {
      LeadsOn(t, path, v);
      LeadsToLive(t', live[path[0] := v], path[1..]);
    }
  }

  lemma {:induction false} LeadsFree(t: map<int, Value>, free: seq<int>, p: nat, v: Value)
    requires Chained(t, free) && p < |free| && (forall i, j | 0 <= i < j < |free| :: free[i] != free[j])
    requires forall i | 0 <= i < |free| :: free[i] > 1
    ensures Leads(t[free[p] := v], free[..p + 1])
  {
    var t', path := t[free[p] := v], free[..p + 1];
    forall i | 0 <= i < |path| - 1 ensures Link(t', path, i) {
      assert Link(t, free, i);
    }
  }

  /** A reference taken right after a release undoes it. */
  lemma {:induction false} Again(t: map<int, Value>, r: int, v: Value)
    requires 1 in t && t[1].Number? && r > 1 && v != Nil
    ensures RefStep(Released(t, r), v, r, t[r := v])
  {
    var t' := Released(t, r);
    assert Put(Put(t', 1, At(t', r)), r, v) == t[r := v];
  }

  /** A slot that is released a second time is given out twice. */
  lemma {:induction false} TwiceGiven(t: map<int, Value>, live: map<int, Value>, free: seq<int>, p: nat)
    requires Listed(t, live, free) && p < |free|
    ensures !Serves(Released(t, free[p]), live, p + 2)
  {
    var r, v, t' := free[p], Other(0), Released(t, free[p]);
    Again(t, r, v);
    LeadsFree(t, free, p, v);
    LeadsToLive(t[r := v], live[r := v], free[..p + 1]);
    assert RefStep(t', v, r, t[r := v]);
  }

  /** Releasing slot 1 gives out slot 1. */
  lemma {:induction false} FirstGiven(t: map<int, Value>, live: map<int, Value>)
    requires 1 in t
    ensures !Serves(Released(t, 1), live, 1)
  {
    var t', v := Released(t, 1), Other(0);
    assert RefStep(t', v, 1, Put(Put(t', 1, At(t', 1)), 1, v));
  }

  lemma {:induction false} HoldsListed(t: map<int, Value>, live: map<int, Value>, free: seq<int>, peak: nat)
    requires Holds(t, live, free, peak)
    ensures Listed(t, live, free)
  {
  }

  lemma {:induction false} ListedGiven(t: map<int, Value>, live: map<int, Value>, free: seq<int>, r: int)
    requires Listed(t, live, free) && r >= 0 && r != 1 && r !in free
    ensures Listed(Released(t, r), live - {r}, if r == 0 then [] else [r] + free)
  {
    if r != 0 { GiveChain(t, free, r); }
  }

  /** After a release all later calls work if and only if the reference was not slot 1 and not free
      already. */
  lemma {:induction false} ReleaseIff(t: map<int, Value>, live: map<int, Value>, free: seq<int>, r: int)
    requires Listed(t, live, free) && r >= 0
    ensures (forall n: nat :: Serves(Released(t, r), live - {r}, n)) <==> r != 1 && r !in free
  {
    if r == 1 {
      FirstGiven(t, live - {1});
    } else if r in free {
      var p :| 0 <= p < |free| && free[p] == r;
      assert live - {r} == live;
      TwiceGiven(t, live, free, p);
    } else {
      ListedGiven(t, live, free, r);
      forall n: nat ensures Serves(Released(t, r), live - {r}, n) {
        ListedServes(Released(t, r), live - {r}, if r == 0 then [] else [r] + free, n);
      }
    }
  }

  lemma {:induction false} GiveAny(t: map<int, Value>, live: map<int, Value>, free: seq<int>, peak: nat, r: int)
    requires Holds(t, live, free, peak) && r >= 0
    ensures r in live ==> Holds(Released(t, r), live - {r}, [r] + free, peak)
    ensures r == peak + 2 ==> Holds(Released(t, r), live - {r}, [r] + free, peak + 1)
  {
    if r in live {
      GiveBack(t, live, free, peak, r);
    } else if r == peak + 2 {
      GiveNew(t, live, free, peak);
      assert live - {r} == live;
    }
  }

  class RefTable {
    var t: map<int, Value>
    ghost var live: map<int, Value>
    ghost var free: seq<int>
    ghost var peak: nat

    ghost predicate Valid()
      reads this
    {
      Unused() || InUse()
    }

    ghost predicate InUse()
      reads this
    {
      Holds(t, live, free, peak)
    }

    ghost predicate Unused()
      reads this
    {
      Untouched(t, peak) && live == t - {1} && free == []
    }

    constructor ()
      ensures Valid() && live == map[] && free == [] && peak == 0
    {
      t, live, free, peak := map[], map[], [], 0;
    }

    /** init_registry */
    constructor Registry(preset: seq<Value>)
      requires forall i | 0 <= i < |preset| :: preset[i] != Nil
      ensures Valid() && Unused() && free == [] && peak == |preset|
      ensures forall r :: r in live <==> 2 <= r < |preset| + 2
      ensures forall r | 2 <= r < |preset| + 2 :: live[r] == preset[r - 2]
    {
      t, live, free, peak := InitRegistry(preset), InitRegistry(preset) - {1}, [], |preset|;
      RegistryUntouched(preset);
    }

    /** lua_rawlen */
    method RawLen() returns (n: int)
      requires Valid()
      ensures IsBorder(t, n)
    {
      n := 0;
      ghost var rest := t.Keys;
      while n + 1 in t
        invariant n >= 0 && (n == 0 || n in t)
        invariant rest <= t.Keys && forall k | k in t && k > n :: k in rest
        decreases |rest|
      {
        n := n + 1;
        Smaller(rest, n);
        rest := rest - {n};
      }
    }

    static lemma {:induction false} Smaller(s: set<int>, x: int)
      requires x in s
      ensures |s - {x}| < |s|
    {
    }

    /** luaL_ref on a table in use. */
    method Take(v: Value) returns (r: int)
      requires InUse() && v != Nil
      modifies this
      ensures InUse() && r >= 2 && r !in old(live) && live == old(live)[r := v]
      ensures peak == if |live| > old(peak) then |live| else old(peak)
      ensures old(free) != [] ==> r == old(free)[0] && free == old(free)[1..]
      ensures old(free) == [] ==> free == [] && r == old(peak) + 2
      ensures RefStep(old(t), v, r, t)
    {
      r := t[1].n;
      if r != 0 {
        TakeFree(t, live, free, peak, v);
        TakeStep(t, free, v);
        t := t[1 := t[r]];
        live, free := live[r := v], free[1..];
      } else {
        NoneFree(t, live, free, peak);
        r := RawLen();
        OneBorder(t, live, free, peak, r);
        TakeNew(t, live, peak, v);
        r := r + 1;
        live, peak := live[r := v], peak + 1;
      }
      t := t[r := v];
    }

    /** luaL_ref: a new reference is none of the live ones, and nothing else changes. */
    method Ref(v: Value) returns (r: int)
      requires Valid()
      modifies this
      ensures v == Nil ==> r == LUA_REFNIL && unchanged(this)
      ensures v != Nil ==> InUse() && r >= 2 && r !in old(live) && live == old(live)[r := v]
      ensures v != Nil ==> peak == if |live| > old(peak) then |live| else old(peak)
      ensures v != Nil && old(free) != [] ==> r == old(free)[0] && free == old(free)[1..]
      ensures v != Nil && old(free) == [] ==> free == [] && r == old(peak) + 2
      ensures v != Nil && old(InUse()) ==> RefStep(old(t), v, r, t)
    {
      if v == Nil {
        return LUA_REFNIL;
      }
      if !(1 in t && t[1].Number?) {
        FirstUse(t, peak);
        t := t[1 := Number(0)];
      }
      r := Take(v);
    }

    /** luaL_unref on a reference: the slot goes to the front of the free list.  Nothing detects a
        reference that is not live. */
    method Give(ref: int)
      requires InUse() && ref >= 0
      modifies this
      ensures 1 in old(t) && t == Released(old(t), ref) && free == [ref] + old(free) && live == old(live) - {ref}
      ensures peak == if ref == old(peak) + 2 then ref - 1 else old(peak)
      ensures ref in old(live) || ref == old(peak) + 2 ==> InUse()
    {
      GiveAny(t, live, free, peak, ref);
      t := t[ref := t[1]];
      t := t[1 := Number(ref)];
      if ref == peak + 2 { peak := peak + 1; }
      live, free := live - {ref}, [ref] + free;
    }

    /** luaL_unref */
    method Unref(ref: int)
      requires if ref < 0 then Valid() else InUse()
      modifies this
      ensures ref < 0 ==> unchanged(this)
      ensures ref >= 0 ==>
                1 in old(t) && t == Released(old(t), ref) && free == [ref] + old(free) && live == old(live) - {ref}
      ensures ref >= 0 ==> peak == if ref == old(peak) + 2 then ref - 1 else old(peak)
      ensures ref in old(live) || (ref >= 0 && ref == old(peak) + 2) ==> InUse()
      ensures ref >= 0 ==> ((forall n: nat :: Serves(t, live, n)) <==> ref != 1 && ref !in old(free))
    {
      if ref >= 0 {
        HoldsListed(t, live, free, peak);
        ReleaseIff(t, live, free, ref);
        Give(ref);
      }
    }

    /** lua_rawgeti with a live reference */
    method Get(ref: int) returns (v: Value)
      requires Valid() && ref in live
      ensures v == live[ref]
    {
      v := t[ref];
    }
  }
}
