/** The final pass over a function's code: jumps to jumps become direct, in place. */
module LuaFinish {
  import opened LuaVm

  /** Every jump stays inside the code. */
  ghost predicate Closed(code: Code) {
    forall i | 0 <= i < |code| && code[i].OpJmp? :: 0 <= Target(code, i) < |code|
  }

  /** Every jump goes forward, as those of expressions do. */
  ghost predicate Forward(code: Code) {
    forall i | 0 <= i < |code| && code[i].OpJmp? :: i < Target(code, i)
  }

  /** From i, execution gets to the instruction t, which is not a jump, through n jumps. */
  ghost predicate Reach(code: Code, i: int, t: int, n: nat)
    decreases n
  {
    0 <= i < |code| &&
    if n == 0 then i == t && !code[i].OpJmp? else code[i].OpJmp? && Reach(code, Target(code, i), t, n - 1)
  }

  ghost predicate LandsOn(code: Code, i: int, t: int) {
    exists n :: Reach(code, i, t, n)
  }

  /** Jumps are followed at most n times. */
  function Final(code: Code, i: int, n: nat): int
    requires 0 <= i < |code| && Closed(code)
    decreases n
  {
    if n == 0 || !code[i].OpJmp? then i else Final(code, Target(code, i), n - 1)
  }

  /** The method finds what `Final` says, and stays inside the code. */
  method FinalTarget(code: array<Instr>, start: int) returns (i: int)
    requires 0 <= start < code.Length && Closed(code[..])
    ensures 0 <= i < code.Length && i == Final(code[..], start, 100)
  {
    i := start;
    var count := 0;
    while count < 100
      invariant 0 <= i < code.Length && 0 <= count <= 100
      invariant Final(code[..], i, 100 - count) == Final(code[..], start, 100)
    {
      if !code[i].OpJmp? { break; }
      i := Target(code[..], i);
      count := count + 1;
    }
  }

  lemma {:induction false} ReachEnds(code: Code, i: int, t: int, n: nat)
    requires Reach(code, i, t, n)
    ensures 0 <= t < |code| && !code[t].OpJmp?
    decreases n
  {
    if n > 0 { ReachEnds(code, Target(code, i), t, n - 1); }
  }

  /** What the n-jump limit gives up: with at most n jumps ahead, `Final` finds the end; otherwise
      it stops n jumps ahead on the same way. */
  lemma {:induction false} FinalOnTheWay(code: Code, i: int, n: nat, t: int, m: nat)
    requires Closed(code) && Reach(code, i, t, m)
    ensures m <= n <==> Final(code, i, n) == t
    ensures 0 <= Final(code, i, n) < |code| && Reach(code, Final(code, i, n), t, if m <= n then 0 else m - n)
    decreases n
  {
    ReachEnds(code, i, t, m);
    if n > 0 && m > 0 {
      FinalOnTheWay(code, Target(code, i), n - 1, t, m - 1);
    }
  }

  lemma {:induction false} FinalBack(code: Code, i: int, n: nat, t: int, m: nat) returns (k: nat)
    requires Closed(code) && 0 <= i < |code| && Reach(code, Final(code, i, n), t, m)
    ensures Reach(code, i, t, k)
    decreases n
  {
    if n == 0 || !code[i].OpJmp? {
      k := m;
    } else {
      k := FinalBack(code, Target(code, i), n - 1, t, m);
      k := k + 1;
    }
  }

  /** One step of the pass. */
  ghost predicate Redirected(code: Code, p: int, code': Code) {
    && 0 <= p < |code| && code[p].OpJmp? && Closed(code)
    && code' == code[p := OpJmp(Final(code, p, 100) - (p + 1))]
  }

  /** No way gets longer, and all of them end where they did. */
  lemma {:induction false} RedirectKeeps(code: Code, p: int, code': Code, j: int, t: int, n: nat) returns (m: nat)
    requires Redirected(code, p, code') && Reach(code, j, t, n)
    ensures m <= n && Reach(code', j, t, m)
    decreases n
  {
    if n == 0 {
      m := 0;
    } else if j == p {
      FinalOnTheWay(code, p, 100, t, n);
      m := RedirectKeeps(code, p, code', Final(code, p, 100), t, if n <= 100 then 0 else n - 100);
      m := m + 1;
    } else {
      m := RedirectKeeps(code, p, code', Target(code, j), t, n - 1);
      m := m + 1;
    }
  }

  lemma {:induction false} RedirectAddsNone(code: Code, p: int, code': Code, j: int, t: int, n: nat) returns (m: nat)
    requires Redirected(code, p, code') && Reach(code', j, t, n)
    ensures Reach(code, j, t, m)
    decreases n
  {
    if n == 0 {
      m := 0;
    } else if j == p {
      m := RedirectAddsNone(code, p, code', Final(code, p, 100), t, n - 1);
      m := FinalBack(code, p, 100, t, m);
    } else {
      m := RedirectAddsNone(code, p, code', Target(code, j), t, n - 1);
      m := m + 1;
    }
  }

  lemma {:induction false} FinalInside(code: Code, i: int, n: nat)
    requires Closed(code) && 0 <= i < |code|
    ensures 0 <= Final(code, i, n) < |code|
    decreases n
  {
    if n > 0 && code[i].OpJmp? { FinalInside(code, Target(code, i), n - 1); }
  }

  lemma {:induction false} FinalForward(code: Code, i: int, n: nat)
    requires Closed(code) && Forward(code) && 0 <= i < |code|
    ensures i <= Final(code, i, n) && (n > 0 && code[i].OpJmp? ==> i < Final(code, i, n))
    decreases n
  {
    if n > 0 && code[i].OpJmp? { FinalForward(code, Target(code, i), n - 1); }
  }

  lemma {:induction false} RedirectForward(code: Code, p: int, code': Code)
    requires Redirected(code, p, code') && Forward(code)
    ensures Forward(code')
  {
    FinalForward(code, p, 100);
  }

  /** What the pass keeps: only jumps change, all of them stay inside the code, no way gets longer,
      and control gets to the same instruction from everywhere, or nowhere if it did not before. */
  ghost predicate Equivalent(code: Code, code': Code) {
    && |code'| == |code| && Closed(code')
    && (forall i | 0 <= i < |code| :: code'[i] == code[i] || (code[i].OpJmp? && code'[i].OpJmp?))
    && (forall i, t, n | Reach(code, i, t, n) :: Shorter(code', i, t, n))
    && (forall i, t, n | Reach(code', i, t, n) :: LandsOn(code, i, t))
  }

  ghost predicate Shorter(code: Code, i: int, t: int, n: nat) {
    exists m: nat :: m <= n && Reach(code, i, t, m)
  }

  lemma {:induction false} SameCode(code: Code)
    requires Closed(code)
    ensures Equivalent(code, code)
  {
  }

  lemma {:induction false} RedirectStep(code0: Code, code: Code, p: int, code': Code)
    requires Equivalent(code0, code) && Redirected(code, p, code')
    ensures Equivalent(code0, code')
  {
    FinalInside(code, p, 100);
    forall i, t, n | Reach(code0, i, t, n) ensures Shorter(code', i, t, n) {
      assert Shorter(code, i, t, n);
      var m: nat :| m <= n && Reach(code, i, t, m);
      var m' := RedirectKeeps(code, p, code', i, t, m);
    }
    forall i, t, n | Reach(code', i, t, n) ensures LandsOn(code0, i, t) {
      var m := RedirectAddsNone(code, p, code', i, t, n);
    }
  }

  /** The jump at i goes straight to where it used to get through at most 100 jumps. */
  ghost predicate Direct(code0: Code, code: Code, i: int) {
    0 <= i < |code| && forall t, n | n <= 100 && code[i].OpJmp? && Reach(code0, i, t, n) :: Target(code, i) == t
  }

  lemma {:induction false} RedirectDirect(code0: Code, code: Code, p: int, code': Code)
    requires Equivalent(code0, code) && Redirected(code, p, code')
    ensures Direct(code0, code', p)
  {
    forall t, n | n <= 100 && code'[p].OpJmp? && Reach(code0, p, t, n) ensures Target(code', p) == t {
      assert Shorter(code, p, t, n);
      var m: nat :| m <= n && Reach(code, p, t, m);
      FinalOnTheWay(code, p, 100, t, m);
    }
  }

  lemma {:induction false} DirectKept(code0: Code, code: Code, code': Code, i: int)
    requires Direct(code0, code, i) && |code'| == |code| && code'[i] == code[i]
    ensures Direct(code0, code', i)
  {
    forall t, n | n <= 100 && code'[i].OpJmp? && Reach(code0, i, t, n) ensures Target(code', i) == t {
      assert Target(code, i) == t;
    }
  }

  /** luaK_finish on its jumps: the array is rewritten while it is read. */
  method Finish(code: array<Instr>) returns (st: Status)
    requires Closed(code[..])
    modifies code
    ensures Equivalent(old(code[..]), code[..]) && (Forward(old(code[..])) ==> Forward(code[..]))
    ensures st.Ok? ==> forall i | 0 <= i < code.Length :: Direct(old(code[..]), code[..], i)
    ensures code.Length <= OFFSET_sJ ==> st.Ok?
  {
    ghost var code0 := code[..];
    SameCode(code0);
    var i := 0;
    while i < code.Length
      invariant 0 <= i <= code.Length
      invariant Equivalent(code0, code[..]) && (Forward(code0) ==> Forward(code[..]))
      invariant forall k | 0 <= k < i :: Direct(code0, code[..], k)
    {
      if code[i].OpJmp? {
        ghost var before := code[..];
        var target := FinalTarget(code, i);
        if !JumpFits(i, target) {  // fixjump
          return LimitExceeded;
        }
        code[i] := OpJmp(target - (i + 1));
        assert code[..] == before[i := OpJmp(target - (i + 1))];
        RedirectStep(code0, before, i, code[..]);
        if Forward(before) { RedirectForward(before, i, code[..]); }
        RedirectDirect(code0, before, i, code[..]);
        forall k | 0 <= k < i ensures Direct(code0, code[..], k) {
          DirectKept(code0, before, code[..], k);
        }
      }
      i := i + 1;
    }
    st := Ok;
  }

  /** Execution lands on the same instructions before and after the pass. */
  lemma {:induction false} EquivalentLands(code: Code, code': Code, i: int, t: int)
    requires Equivalent(code, code')
    ensures LandsOn(code, i, t) <==> LandsOn(code', i, t)
  {
    if n :| Reach(code, i, t, n) {
      assert Shorter(code', i, t, n);
    }
  }
}
