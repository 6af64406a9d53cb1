/** A whole function body: statements, the final return, and the final pass over the code. */
module LuaBody {
  import opened LuaVm
  import opened LuaSteps
  import opened LuaBlock
  import opened LuaCode
  import opened LuaFinish

  const RETURN0 := OpOther(0)

  /** A run of the whole code gets to the final return, with the local variables that the statements
      make. */
  ghost predicate ReturnsAt(w: World, b: seq<Assign>, code: Code, nvar: int, r0: Regs) {
    && code != [] && code[|code| - 1] == RETURN0
    && var s := Run(w, code, {|code| - 1}, State(0, r0));
       s.pc == |code| - 1 && Agree(s.regs, Exec(w, b, r0), nvar)
  }

  ghost predicate Returns(b: seq<Assign>, code: Code, nvar: int) {
    forall w, r0 :: ReturnsAt(w, b, code, nvar, r0)
  }

  lemma {:induction false} RunAppend(w: World, body: Code, i: Instr, s: State)
    requires 0 <= s.pc
    ensures Run(w, body + [i], {|body|}, s) == Run(w, body, {}, s)
    decreases |body| - s.pc
  {
    if s.pc < |body| {
      var n := Step(w, body, s);
      assert Step(w, body + [i], s) == n;
      if n.pc > s.pc { RunAppend(w, body, i, n); }
    }
  }

  /** With the return behind it, the code of a block keeps its jumps inside, and they go forward. */
  lemma {:induction false} BodyClosed(body: Code, last: int)
    requires Sound(body, {}, 0, last)
    ensures Closed(body + [RETURN0]) && Forward(body + [RETURN0])
  {
    var code := body + [RETURN0];
    forall i | 0 <= i < |code| && code[i].OpJmp? ensures i < Target(code, i) < |code| {
      assert InstrOk(body, {}, last, i);
    }
  }

  lemma {:induction false} ForwardReaches(code: Code, i: int) returns (t: int, k: nat)
    requires Closed(code) && Forward(code) && 0 <= i < |code|
    ensures Reach(code, i, t, k) && i <= t && (code[i].OpJmp? ==> i < t)
    decreases |code| - i
  {
    if code[i].OpJmp? {
      t, k := ForwardReaches(code, Target(code, i));
      k := k + 1;
    } else {
      t, k := i, 0;
    }
  }

  /** Jumps do nothing but take a run to where they land. */
  lemma {:induction false} RunReach(w: World, code: Code, n: int, i: int, t: int, k: nat, r: Regs)
    requires Forward(code) && 0 <= n < |code| && !code[n].OpJmp? && Reach(code, i, t, k)
    ensures Run(w, code, {n}, State(i, r)) == Run(w, code, {n}, State(t, r))
    decreases k
  {
    if k > 0 {
      assert Step(w, code, State(i, r)) == State(Target(code, i), r);
      RunReach(w, code, n, Target(code, i), t, k - 1, r);
    }
  }

  /** The final pass does not change where runs get to, nor with which registers. */
  lemma {:induction false} FinishedRun(w: World, code: Code, code': Code, s: State)
    requires Closed(code) && Equivalent(code, code') && Forward(code) && Forward(code')
    requires code != [] && !code[|code| - 1].OpJmp? && 0 <= s.pc
    ensures Run(w, code', {|code| - 1}, s) == Run(w, code, {|code| - 1}, s)
    decreases |code| - s.pc
  {
    var n := |code| - 1;
    if s.pc < n {
      if code[s.pc].OpJmp? {
        var t, k := ForwardReaches(code, s.pc);
        assert Shorter(code', s.pc, t, k);
        var m: nat :| m <= k && Reach(code', s.pc, t, m);
        RunReach(w, code, n, s.pc, t, k, s.regs);
        RunReach(w, code', n, s.pc, t, m, s.regs);
        FinishedRun(w, code, code', State(t, s.regs));
      } else {
        assert Step(w, code', s) == Step(w, code, s);
        FinishedRun(w, code, code', Step(w, code, s));
      }
    }
  }

  lemma {:induction false} FinishedReturns(b: seq<Assign>, body: Code, nvar: int, last: int, code: Code)
    requires Executes(b, body, nvar) && Sound(body, {}, 0, last)
    requires Equivalent(body + [RETURN0], code) && Forward(code)
    ensures Returns(b, code, nvar)
  {
    BodyClosed(body, last);
    forall w, r0 ensures ReturnsAt(w, b, code, nvar, r0) {
      assert ExecutesAt(w, b, body, nvar, r0);
      RunAppend(w, body, RETURN0, State(0, r0));
      FinishedRun(w, body + [RETURN0], code, State(0, r0));
    }
  }

  lemma {:induction false} FinishedFits(body: Code, last: int, code: Code)
    requires Sound(body, {}, 0, last) && Equivalent(body + [RETURN0], code)
    ensures forall pc | 0 <= pc < |code| :: Fits(code[pc])
  {
    forall pc | 0 <= pc < |code| ensures Fits(code[pc]) {
      if pc < |body| { assert InstrOk(body, {}, last, pc) && (body + [RETURN0])[pc] == body[pc]; }
    }
  }

  /** A function whose body is a list of assignments to its parameters, from its first instruction to
      close_func. */
  method CompileBody(b: seq<Assign>, nparams: nat) returns (st: Status, code: array<Instr>)
    requires ScopedBlock(b, nparams) && nparams <= MAX_FSTACK
    ensures st.Ok? ==> Returns(b, code[..], nparams)
    ensures st.Ok? ==> forall pc | 0 <= pc < code.Length :: Fits(code[pc])
    ensures st.LimitExceeded? ==>
              code.Length >= OFFSET_sJ || exists i :: 0 <= i < |b| && nparams + Need(b[i].e) > MAX_FSTACK
  {
    var fs := new FuncState(nparams);
    st := fs.CompileBlock(b);
    if st.Ok? {
      var pc := fs.Emit(RETURN0);  // luaK_ret
    }
    var emitted := fs.code;
    code := new Instr[|emitted|](i requires 0 <= i < |emitted| => emitted[i]);
    assert code[..] == emitted;
    if st.Ok? {
      ghost var body := emitted[..|emitted| - 1];
      assert emitted == body + [RETURN0];
      BodyClosed(body, fs.lasttarget);
      st := Finish(code);
      if st.Ok? {
        FinishedReturns(b, body, nparams, fs.lasttarget, code[..]);
        FinishedFits(body, fs.lasttarget, code[..]);
        assert forall pc | 0 <= pc < code.Length :: code[..][pc] == code[pc];
      }
    }
  }
}
