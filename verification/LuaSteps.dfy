/** Each operation of the expression generator keeps descriptors meaningful: for every world and
    every register file at once, together with the well-formedness the next operation needs. */
module LuaSteps {
  import opened LuaVm
  import opened LuaMeaning

  /** What holds after a test and before its lists are settled. */
  ghost predicate BranchWf(site: Site, code: Code, last: int, ks: set<int>, ds: set<int>) {
    && 0 <= last && Sound(code, site.out + ks + ds, site.lo, last) && Anchored(code, site.lo, last)
    && site.lo <= |site.code| && Keeps(site.code, code)
    && (forall j | j in site.out :: j < |site.code|)
    && Apart(site, ks, ds)
    && (forall j | j in ks :: |site.code| < j < |code|)
    && (forall j | j in ds :: |site.code| < j < |code|)
  }

  // ---------------------------------------------------------------- leaves

  lemma {:induction false} StartRun(w: World, site: Site, last: int, r0: Regs)
    requires Sound(site.code, site.out, site.lo, last)
    ensures var s := Before(w, site, r0); s.pc in site.out || s.pc == |site.code|
  {
    RunEnds(w, site.code, site.out, site.lo, last, site.out, State(site.lo, r0));
  }

  /** The descriptor of a literal or a variable, before any code is emitted for it. */
  lemma {:induction false} LeafStep(site: Site, nvar: int, last: int, e: Expr, k: Kind)
    requires 0 <= last && Sound(site.code, site.out, site.lo, last) && Anchored(site.code, site.lo, last)
    requires forall j | j in site.out :: j < |site.code|
    requires !k.VReloc? && !k.VJmp? && !k.VNonReloc? && (k.VLocal? ==> 0 <= k.r < nvar)
    requires forall w: World, r: Regs :: KindValue(w, k, r) == Eval(w, e, r)
    ensures Wf(site, nvar, site.code, last, k, {}, {})
    ensures Denotes(site, e, site.code, k, {}, {}, NO_JUMP)
  {
    assert Pending(site.out, k, {}, {}) == site.out && Pause(k) == {};
    forall w, r0 ensures DenotesAt(w, site, e, site.code, k, {}, {}, NO_JUMP, r0) {
      StartRun(w, site, last, r0);
      assert Pending(site.out, k, {}, {}) + Pause(k) == site.out;
    }
  }

  lemma {:induction false} LocalStep(site: Site, nvar: int, e: Expr, code: Code, last: int, r: int, ts: set<int>,
                                     fs: set<int>)
    requires Wf(site, nvar, code, last, VLocal(r), ts, fs) && nvar <= NO_REG
    requires Denotes(site, e, code, VLocal(r), ts, fs, NO_JUMP)
    ensures Wf(site, nvar, code, last, VNonReloc(r), ts, fs)
    ensures Denotes(site, e, code, VNonReloc(r), ts, fs, NO_JUMP)
  {
    assert Pending(site.out, VNonReloc(r), ts, fs) == Pending(site.out, VLocal(r), ts, fs);
    forall w, r0 ensures DenotesAt(w, site, e, code, VNonReloc(r), ts, fs, NO_JUMP, r0) {
      assert DenotesAt(w, site, e, code, VLocal(r), ts, fs, NO_JUMP, r0);
    }
  }

  lemma {:induction false} UpvalMeans(w: World, site: Site, e: Expr, code: Code, last: int, u: int, ts: set<int>,
                                      fs: set<int>, r0: Regs)
    requires Sound(code, Pending(site.out, VUpval(u), ts, fs), site.lo, last) && Placed(site, code, VUpval(u), ts, fs)
    requires DenotesAt(w, site, e, code, VUpval(u), ts, fs, NO_JUMP, r0)
    ensures DenotesAt(w, site, e, code + [OpGetUpval(0, u)], VReloc(|code|), ts, fs, NO_JUMP, r0)
  {
    var p := Pending(site.out, VUpval(u), ts, fs);
    assert Pending(site.out, VReloc(|code|), ts, fs) == p && Pause(VUpval(u)) == {}
           && Pause(VReloc(|code|)) == {|code|};
    RunEmitPaused(w, code, p, site.lo, last, OpGetUpval(0, u), State(site.lo, r0));
  }

  lemma {:induction false} UpvalStep(site: Site, nvar: int, e: Expr, code: Code, last: int, u: int, ts: set<int>,
                                     fs: set<int>)
    requires Wf(site, nvar, code, last, VUpval(u), ts, fs)
    requires Denotes(site, e, code, VUpval(u), ts, fs, NO_JUMP)
    ensures Wf(site, nvar, code + [OpGetUpval(0, u)], last, VReloc(|code|), ts, fs)
    ensures Denotes(site, e, code + [OpGetUpval(0, u)], VReloc(|code|), ts, fs, NO_JUMP)
  {
    assert Pending(site.out, VReloc(|code|), ts, fs) == Pending(site.out, VUpval(u), ts, fs);
    SoundEmit(code, Pending(site.out, VUpval(u), ts, fs), site.lo, last, OpGetUpval(0, u));
    forall w, r0 ensures DenotesAt(w, site, e, code + [OpGetUpval(0, u)], VReloc(|code|), ts, fs, NO_JUMP, r0) {
      UpvalMeans(w, site, e, code, last, u, ts, fs, r0);
    }
  }

  // ---------------------------------------------------------------- registers

  lemma {:induction false} InRegStep(site: Site, nvar: int, e: Expr, code: Code, last: int, k: Kind, ts: set<int>,
                                     fs: set<int>,
                                     reg: int, code': Code)
    requires Wf(site, nvar, code, last, k, ts, fs) && InReg(code, last, k, reg, code') && 0 <= reg < NO_REG
    requires Denotes(site, e, code, k, ts, fs, NO_JUMP)
    ensures Wf(site, nvar, code', last, VNonReloc(reg), ts, fs)
    ensures Denotes(site, e, code', VNonReloc(reg), ts, fs, reg)
    ensures OnlyEnd(site, code, code')
  {
    InRegWf(site, nvar, code, last, k, ts, fs, reg, code');
    forall w, r0 ensures DenotesAt(w, site, e, code', VNonReloc(reg), ts, fs, reg, r0) {
      InRegMeans(w, site, nvar, e, code, last, k, ts, fs, reg, code', r0);
    }
  }

  /** Lists survive when only the straight instruction at the end changed. */
  lemma {:induction false} OnlyEndLists(site: Site, code: Code, code': Code, t: int, tl: seq<int>, f: int, fl: seq<int>)
    requires OnlyEnd(site, code, code') && IsList(code, t, tl) && IsList(code, f, fl)
    ensures IsList(code', t, tl) && IsList(code', f, fl)
  {
  }

  /** Writing a register that is not in use disturbs nothing. */
  lemma {:induction false} FreshStep(site: Site, e: Expr, code: Code, k: Kind, ts: set<int>, fs: set<int>, reg: int)
    requires Denotes(site, e, code, k, ts, fs, reg) && site.base <= reg
    ensures Denotes(site, e, code, k, ts, fs, NO_JUMP)
  {
    forall w, r0 ensures DenotesAt(w, site, e, code, k, ts, fs, NO_JUMP, r0) {
      assert DenotesAt(w, site, e, code, k, ts, fs, reg, r0);
    }
  }

  // ---------------------------------------------------------------- tests

  lemma {:induction false} TestSetStep(site: Site, nvar: int, e: Expr, code: Code, last: int, r: int, ts: set<int>,
                                       fs: set<int>, cond: bool)
    requires Wf(site, nvar, code, last, VNonReloc(r), ts, fs) && Denotes(site, e, code, VNonReloc(r), ts, fs, NO_JUMP)
    ensures var code', ks, ds := code + [OpTestSet(NO_REG, r, cond), OpJmp(NO_JUMP)], Kept(cond, ts, fs) + {|code| + 1},
            Kept(!cond, ts, fs);
            BranchWf(site, code', last, ks, ds) && Branches(site, e, code', ks, ds, cond)
  {
    var p, i := Pending(site.out, VNonReloc(r), ts, fs), OpTestSet(NO_REG, r, cond);
    var code', ks, ds := code + [i, OpJmp(NO_JUMP)], Kept(cond, ts, fs) + {|code| + 1}, Kept(!cond, ts, fs);
    SoundEmitTest(code, p, site.lo, last, i);
    assert p + {|code| + 1} == site.out + ks + ds;
    forall w, r0 ensures BranchAt(w, site, e, code', ks, ds, cond, r0) {
      assert DenotesAt(w, site, e, code, VNonReloc(r), ts, fs, NO_JUMP, r0);
      TestSetMeans(w, site, e, code, last, r, ts, fs, cond, r0);
    }
  }

  lemma {:induction false} TestNotStep(site: Site, nvar: int, e: Expr, code: Code, i: Instr, last: int, ts: set<int>,
                                       fs: set<int>, cond: bool)
    requires Wf(site, nvar, code + [i], last, VReloc(|code|), ts, fs)
             && Denotes(site, e, code + [i], VReloc(|code|), ts, fs, NO_JUMP) && i.OpNot?
    ensures var code', ks, ds := code + [OpTest(i.b, !cond), OpJmp(NO_JUMP)], Kept(cond, ts, fs) + {|code| + 1},
            Kept(!cond, ts, fs);
            BranchWf(site, code', last, ks, ds) && Branches(site, e, code', ks, ds, cond)
  {
    var p, test := Pending(site.out, VReloc(|code|), ts, fs), OpTest(i.b, !cond);
    var code', ks, ds := code + [test, OpJmp(NO_JUMP)], Kept(cond, ts, fs) + {|code| + 1}, Kept(!cond, ts, fs);
    SoundRemoveLast(code + [i], p, site.lo, last);
    assert (code + [i])[..|code|] == code;
    SoundEmitTest(code, p, site.lo, last, test);
    assert p + {|code| + 1} == site.out + ks + ds;
    forall w, r0 ensures BranchAt(w, site, e, code', ks, ds, cond, r0) {
      assert DenotesAt(w, site, e, code + [i], VReloc(|code|), ts, fs, NO_JUMP, r0);
      TestNotMeans(w, site, e, code, i, last, ts, fs, cond, r0);
    }
  }

  lemma {:induction false} TestCmpStep(site: Site, nvar: int, e: Expr, code: Code, last: int, pc: int, ts: set<int>,
                                       fs: set<int>)
    requires Wf(site, nvar, code, last, VJmp(pc), ts, fs) && Denotes(site, e, code, VJmp(pc), ts, fs, NO_JUMP)
    ensures BranchWf(site, code, last, ts + {pc}, fs) && Branches(site, e, code, ts + {pc}, fs, true)
  {
    assert Pending(site.out, VJmp(pc), ts, fs) == site.out + (ts + {pc}) + fs;
    forall w, r0 ensures BranchAt(w, site, e, code, ts + {pc}, fs, true, r0) {
      assert DenotesAt(w, site, e, code, VJmp(pc), ts, fs, NO_JUMP, r0);
      TestCmpMeans(w, site, e, code, last, pc, ts, fs, r0);
    }
  }

  lemma {:induction false} TestNegatedStep(site: Site, nvar: int, e: Expr, code: Code, last: int, pc: int, ts: set<int>,
                                           fs: set<int>)
    requires Wf(site, nvar, code, last, VJmp(pc), ts, fs) && Denotes(site, e, code, VJmp(pc), ts, fs, NO_JUMP)
    ensures var code' := code[pc - 1 := Negated(code[pc - 1])];
            BranchWf(site, code', last, fs + {pc}, ts) && Branches(site, e, code', fs + {pc}, ts, false)
  {
    var code' := code[pc - 1 := Negated(code[pc - 1])];
    var p := Pending(site.out, VJmp(pc), ts, fs);
    assert p == site.out + (fs + {pc}) + ts;
    assert InstrOk(code, p, last, pc - 1);
    SoundReplace(code, p, site.lo, last, pc - 1, code'[pc - 1]);
    forall w, r0 ensures BranchAt(w, site, e, code', fs + {pc}, ts, false, r0) {
      assert DenotesAt(w, site, e, code, VJmp(pc), ts, fs, NO_JUMP, r0);
      TestNegatedMeans(w, site, e, code, last, pc, ts, fs, code', r0);
    }
  }

  lemma {:induction false} TestConstStep(site: Site, nvar: int, e: Expr, code: Code, last: int, k: Kind, ts: set<int>,
                                         fs: set<int>, cond: bool)
    requires Wf(site, nvar, code, last, k, ts, fs) && Denotes(site, e, code, k, ts, fs, NO_JUMP)
    requires if cond then k.VNil? || k.VFalse? else k.VTrue? || k.VKInt? || k.VKStr?
    ensures BranchWf(site, code, last, Kept(cond, ts, fs), Kept(!cond, ts, fs))
    ensures Branches(site, e, code, Kept(cond, ts, fs), Kept(!cond, ts, fs), cond)
  {
    var ks, ds := Kept(cond, ts, fs), Kept(!cond, ts, fs);
    assert Pending(site.out, k, ts, fs) == site.out + ks + ds;
    forall w, r0 ensures BranchAt(w, site, e, code, ks, ds, cond, r0) {
      assert DenotesAt(w, site, e, code, k, ts, fs, NO_JUMP, r0);
      TestConstMeans(w, site, e, code, k, ts, fs, cond, r0);
    }
  }

  // ---------------------------------------------------------------- tests, with the lists threaded

  /** After a test: the jumps `jl` are taken when the value's truth is `cond`.  The list `kl`, which
      leaves in the same case, and the list `dl` are not settled yet. */
  ghost predicate Split(site: Site, e: Expr, code: Code, last: int, keep: int, kl: seq<int>, drop: int, dl: seq<int>,
                        jl: seq<int>, cond: bool) {
    && BranchWf(site, code, last, JumpSet(kl) + JumpSet(jl), JumpSet(dl))
    && Branches(site, e, code, JumpSet(kl) + JumpSet(jl), JumpSet(dl), cond)
    && IsList(code, keep, kl) && IsList(code, drop, dl) && IsList(code, if jl == [] then NO_JUMP else jl[0], jl)
    && (forall i, j | 0 <= i < |kl| && 0 <= j < |jl| :: kl[i] != jl[j])
  }

  lemma {:induction false} JumpSetOne(j: int)
    ensures JumpSet([j]) == {j} && JumpSet([]) == {}
  {
  }

  /** The three lists after a new pending jump has been emitted at the end of the code. */
  lemma {:induction false} SplitLists(code: Code, code': Code, t: int, tl: seq<int>, f: int, fl: seq<int>)
    requires IsList(code, t, tl) && IsList(code, f, fl) && |code| < |code'| && code'[|code'| - 1] == OpJmp(NO_JUMP)
    requires forall pc | 0 <= pc < |code| :: code'[pc] == code[pc] || !code[pc].OpJmp?
    ensures IsList(code', t, tl) && IsList(code', f, fl) && IsList(code', |code'| - 1, [|code'| - 1])
    ensures forall i | 0 <= i < |tl| :: tl[i] != |code'| - 1
    ensures forall i | 0 <= i < |fl| :: fl[i] != |code'| - 1
  {
  }

  lemma {:induction false} SplitOne(site: Site, e: Expr, code: Code, last: int, keep: int, kl: seq<int>, drop: int,
                                    dl: seq<int>, pc: int, cond: bool)
    requires BranchWf(site, code, last, JumpSet(kl) + {pc}, JumpSet(dl))
             && Branches(site, e, code, JumpSet(kl) + {pc}, JumpSet(dl), cond)
    requires IsList(code, keep, kl) && IsList(code, drop, dl) && IsList(code, pc, [pc])
    requires forall i | 0 <= i < |kl| :: kl[i] != pc
    ensures Split(site, e, code, last, keep, kl, drop, dl, [pc], cond)
  {
    JumpSetOne(pc);
  }

  /** The same for a test whose sense is `cond`. */
  /** The list of a jump that is taken on `cond`, and the other one. */
  function Pick<T>(cond: bool, a: T, b: T): T {
    if cond then a else b
  }

  lemma {:induction false} SplitKept(site: Site, e: Expr, code: Code, last: int, t: int, tl: seq<int>, f: int,
                                     fl: seq<int>, pc: int, cond: bool)
    requires BranchWf(site, code, last, Kept(cond, JumpSet(tl), JumpSet(fl)) + {pc},
                      Kept(!cond, JumpSet(tl), JumpSet(fl)))
    requires Branches(site, e, code, Kept(cond, JumpSet(tl), JumpSet(fl)) + {pc}, Kept(!cond, JumpSet(tl), JumpSet(fl)),
                      cond)
    requires IsList(code, t, tl) && IsList(code, f, fl) && IsList(code, pc, [pc])
    requires (forall i | 0 <= i < |tl| :: tl[i] != pc) && (forall i | 0 <= i < |fl| :: fl[i] != pc)
    ensures Split(site, e, code, last, Pick(cond, t, f), Pick(cond, tl, fl), Pick(cond, f, t), Pick(cond, fl, tl), [pc],
                  cond)
  {
    assert JumpSet(Pick(cond, tl, fl)) == Kept(cond, JumpSet(tl), JumpSet(fl));
    assert JumpSet(Pick(cond, fl, tl)) == Kept(!cond, JumpSet(tl), JumpSet(fl));
    SplitOne(site, e, code, last, Pick(cond, t, f), Pick(cond, tl, fl), Pick(cond, f, t), Pick(cond, fl, tl), pc, cond);
  }

  lemma {:induction false} TestLists(code: Code, test: Instr, t: int, tl: seq<int>, f: int, fl: seq<int>)
    requires IsList(code, t, tl) && IsList(code, f, fl)
    ensures var code' := code + [test, OpJmp(NO_JUMP)];
            IsList(code', t, tl) && IsList(code', f, fl) && IsList(code', |code| + 1, [|code| + 1])
    ensures forall i | 0 <= i < |tl| :: tl[i] != |code| + 1
    ensures forall i | 0 <= i < |fl| :: fl[i] != |code| + 1
  {
    SplitLists(code, code + [test, OpJmp(NO_JUMP)], t, tl, f, fl);
  }

  lemma {:induction false} RegSplit(site: Site, nvar: int, e: Expr, code: Code, last: int, v: ExpDesc, tl: seq<int>,
                                    fl: seq<int>, cond: bool, code': Code)
    requires v.k.VNonReloc? && Wf(site, nvar, code, last, v.k, JumpSet(tl), JumpSet(fl))
    requires Denotes(site, e, code, v.k, JumpSet(tl), JumpSet(fl), NO_JUMP) && IsList(code, v.t, tl)
             && IsList(code, v.f, fl)
    requires code' == code + [OpTestSet(NO_REG, v.k.r, cond), OpJmp(NO_JUMP)]
    ensures Split(site, e, code', last, Pick(cond, v.t, v.f), Pick(cond, tl, fl), Pick(cond, v.f, v.t),
                  Pick(cond, fl, tl), [|code| + 1], cond)
  {
    TestLists(code, OpTestSet(NO_REG, v.k.r, cond), v.t, tl, v.f, fl);
    TestSetStep(site, nvar, e, code, last, v.k.r, JumpSet(tl), JumpSet(fl), cond);
    SplitKept(site, e, code', last, v.t, tl, v.f, fl, |code| + 1, cond);
  }

  lemma {:induction false} NotLists(code: Code, i: Instr, test: Instr, t: int, tl: seq<int>, f: int, fl: seq<int>)
    requires IsList(code + [i], t, tl) && IsList(code + [i], f, fl) && i.OpNot?
    ensures var code' := code + [test, OpJmp(NO_JUMP)];
            IsList(code', t, tl) && IsList(code', f, fl) && IsList(code', |code| + 1, [|code| + 1])
    ensures forall i | 0 <= i < |tl| :: tl[i] != |code| + 1
    ensures forall i | 0 <= i < |fl| :: fl[i] != |code| + 1
  {
    SplitLists(code + [i], code + [test, OpJmp(NO_JUMP)], t, tl, f, fl);
  }

  lemma {:induction false} NotSplit(site: Site, nvar: int, e: Expr, code: Code, i: Instr, last: int, t: int,
                                    tl: seq<int>, f: int, fl: seq<int>, cond: bool)
    requires Wf(site, nvar, code + [i], last, VReloc(|code|), JumpSet(tl), JumpSet(fl)) && i.OpNot?
    requires Denotes(site, e, code + [i], VReloc(|code|), JumpSet(tl), JumpSet(fl), NO_JUMP)
    requires IsList(code + [i], t, tl) && IsList(code + [i], f, fl)
    ensures var code' := code + [OpTest(i.b, !cond), OpJmp(NO_JUMP)];
            Split(site, e, code', last, Pick(cond, t, f), Pick(cond, tl, fl), Pick(cond, f, t), Pick(cond, fl, tl),
                  [|code| + 1], cond)
  {
    NotLists(code, i, OpTest(i.b, !cond), t, tl, f, fl);
    TestNotStep(site, nvar, e, code, i, last, JumpSet(tl), JumpSet(fl), cond);
    SplitKept(site, e, code + [OpTest(i.b, !cond), OpJmp(NO_JUMP)], last, t, tl, f, fl, |code| + 1, cond);
  }

  /** The same, with the code that ends with the NOT. */
  lemma {:induction false} NotSplitAt(site: Site, nvar: int, e: Expr, code: Code, last: int, v: ExpDesc, tl: seq<int>,
                                      fl: seq<int>, cond: bool, code0: Code, code': Code)
    requires v.k.VReloc? && Wf(site, nvar, code, last, v.k, JumpSet(tl), JumpSet(fl)) && code[v.k.pc].OpNot?
    requires Denotes(site, e, code, v.k, JumpSet(tl), JumpSet(fl), NO_JUMP) && IsList(code, v.t, tl)
             && IsList(code, v.f, fl)
    requires code == code0 + [code[v.k.pc]] && code' == code0 + [OpTest(code[v.k.pc].b, !cond), OpJmp(NO_JUMP)]
    ensures Split(site, e, code', last, Pick(cond, v.t, v.f), Pick(cond, tl, fl), Pick(cond, v.f, v.t),
                  Pick(cond, fl, tl), [|code0| + 1], cond)
  {
    assert v.k == VReloc(|code0|);
    NotSplit(site, nvar, e, code0, code[v.k.pc], last, v.t, tl, v.f, fl, cond);
  }

  /** A comparison's own jump is a list of its own. */
  lemma {:induction false} CmpLists(code: Code, code': Code, pc: int, t: int, tl: seq<int>, f: int, fl: seq<int>)
    requires 0 < pc < |code| && code[pc] == OpJmp(NO_JUMP) && !code[pc - 1].OpJmp?
    requires pc !in JumpSet(tl) && pc !in JumpSet(fl) && IsList(code, t, tl) && IsList(code, f, fl)
    requires |code'| == |code| && forall i | 0 <= i < |code| :: code'[i] == code[i] || i == pc - 1
    ensures IsList(code', t, tl) && IsList(code', f, fl) && IsList(code', pc, [pc])
    ensures forall i | 0 <= i < |tl| :: tl[i] != pc
    ensures forall i | 0 <= i < |fl| :: fl[i] != pc
  {
    assert forall i | 0 <= i < |tl| :: tl[i] in JumpSet(tl);
    assert forall i | 0 <= i < |fl| :: fl[i] in JumpSet(fl);
  }

  lemma {:induction false} NegatedSplit(site: Site, nvar: int, e: Expr, code: Code, last: int, v: ExpDesc, tl: seq<int>,
                                        fl: seq<int>)
    requires v.k.VJmp? && Wf(site, nvar, code, last, v.k, JumpSet(tl), JumpSet(fl))
    requires Denotes(site, e, code, v.k, JumpSet(tl), JumpSet(fl), NO_JUMP) && IsList(code, v.t, tl)
             && IsList(code, v.f, fl)
    ensures Split(site, e, code[v.k.pc - 1 := Negated(code[v.k.pc - 1])], last, v.f, fl, v.t, tl, [v.k.pc], false)
  {
    var pc, code' := v.k.pc, code[v.k.pc - 1 := Negated(code[v.k.pc - 1])];
    TestNegatedStep(site, nvar, e, code, last, pc, JumpSet(tl), JumpSet(fl));
    CmpLists(code, code', pc, v.t, tl, v.f, fl);
    SplitOne(site, e, code', last, v.f, fl, v.t, tl, pc, false);
  }

  lemma {:induction false} CmpSplit(site: Site, nvar: int, e: Expr, code: Code, last: int, v: ExpDesc, tl: seq<int>,
                                    fl: seq<int>)
    requires v.k.VJmp? && Wf(site, nvar, code, last, v.k, JumpSet(tl), JumpSet(fl))
    requires Denotes(site, e, code, v.k, JumpSet(tl), JumpSet(fl), NO_JUMP) && IsList(code, v.t, tl)
             && IsList(code, v.f, fl)
    ensures Split(site, e, code, last, v.t, tl, v.f, fl, [v.k.pc], true)
  {
    TestCmpStep(site, nvar, e, code, last, v.k.pc, JumpSet(tl), JumpSet(fl));
    CmpLists(code, code, v.k.pc, v.t, tl, v.f, fl);
    SplitOne(site, e, code, last, v.t, tl, v.f, fl, v.k.pc, true);
  }

  lemma {:induction false} ConstSplit(site: Site, nvar: int, e: Expr, code: Code, last: int, v: ExpDesc, tl: seq<int>,
                                      fl: seq<int>, cond: bool)
    requires if cond then v.k.VNil? || v.k.VFalse? else v.k.VTrue? || v.k.VKInt? || v.k.VKStr?
    requires Wf(site, nvar, code, last, v.k, JumpSet(tl), JumpSet(fl))
    requires Denotes(site, e, code, v.k, JumpSet(tl), JumpSet(fl), NO_JUMP) && IsList(code, v.t, tl)
             && IsList(code, v.f, fl)
    ensures cond ==> Split(site, e, code, last, v.t, tl, v.f, fl, [], true)
    ensures !cond ==> Split(site, e, code, last, v.f, fl, v.t, tl, [], false)
  {
    TestConstStep(site, nvar, e, code, last, v.k, JumpSet(tl), JumpSet(fl), cond);
    JumpSetOne(0);
    assert JumpSet(tl) + {} == JumpSet(tl) && JumpSet(fl) + {} == JumpSet(fl);
  }

  /** Links of pending jumps may change freely. */
  ghost predicate Relinked(code: Code, code': Code, l: set<int>) {
    |code'| == |code| && forall pc | 0 <= pc < |code| :: code'[pc] == code[pc] || (pc in l && code'[pc].OpJmp?)
  }

  lemma {:induction false} SoundRelink(code: Code, pending: set<int>, lo: int, last: int, l: set<int>, code': Code)
    requires Sound(code, pending, lo, last) && l <= pending && Relinked(code, code', l)
    ensures Sound(code', pending, lo, last)
  {
    forall pc | 0 <= pc < |code| ensures IsTest(code'[pc]) == IsTest(code[pc]) && code'[pc].OpJmp? == code[pc].OpJmp? {
      if pc in l { assert code[pc].OpJmp?; }
    }
    forall pc | lo <= pc < |code'| ensures InstrOk(code', pending, last, pc) {
      assert InstrOk(code, pending, last, pc);
      if pc in l { assert code[pc].OpJmp?; }
    }
  }

  lemma {:induction false} BranchWfRelink(site: Site, code: Code, last: int, ks: set<int>, ds: set<int>, code': Code)
    requires BranchWf(site, code, last, ks, ds) && Relinked(code, code', ks)
    ensures BranchWf(site, code', last, ks, ds)
  {
    SoundRelink(code, site.out + ks + ds, site.lo, last, ks, code');
  }

  lemma {:induction false} BranchWfPatch(site: Site, code: Code, last: int, ks: set<int>, ds: set<int>, code': Code)
    requires BranchWf(site, code, last, ks, ds) && Patched(code, ds, |code|, NO_REG, |code|, code')
    ensures BranchWf(site, code', |code'|, ks, {})
  {
    var p := site.out + ks + ds;
    if j :| j in ds { assert InstrOk(code, p, last, |code| - 1); }
    SoundPatch(code, p, site.lo, last, ds, |code|, NO_REG, |code|, code', |code|);
    assert p - ds == site.out + ks + {};
    forall pc | 0 <= pc < |site.code| ensures code'[pc] == code[pc] {
      assert code'[pc] == PatchedAt(code, ds, |code|, NO_REG, |code|, pc);
    }
  }

  /** Marking the end of the code as a label. */
  lemma {:induction false} BranchWfLabel(site: Site, code: Code, last: int, ks: set<int>, ds: set<int>)
    requires BranchWf(site, code, last, ks, ds)
    ensures BranchWf(site, code, |code|, ks, ds)
  {
    var p := site.out + ks + ds;
    forall pc | site.lo <= pc < |code| ensures InstrOk(code, p, |code|, pc) {
      assert InstrOk(code, p, last, pc);
    }
  }

  lemma {:induction false} PatchKeepsList(code: Code, l: set<int>, vt: int, reg: int, dt: int, code': Code, head: int,
                                          tl: seq<int>)
    requires IsList(code, head, tl) && Patched(code, l, vt, reg, dt, code')
    requires forall i | 0 <= i < |tl| :: tl[i] !in l
    ensures IsList(code', head, tl)
  {
    forall i | 0 <= i < |tl| ensures code'[tl[i]] == code[tl[i]] {
      assert code'[tl[i]] == PatchedAt(code, l, vt, reg, dt, tl[i]);
    }
  }

  lemma {:induction false} JumpSetAppend(l: seq<int>, m: seq<int>)
    ensures JumpSet(l + m) == JumpSet(l) + JumpSet(m)
  {
    assert forall j :: j in l + m <==> j in l || j in m;
  }

  /** luaK_goiftrue and luaK_goiffalse, after the test: the list that goes through is closed. */
  lemma {:induction false} GateStep(site: Site, e: Expr, code: Code, last: int, ks: set<int>, ds: set<int>, cond: bool,
                                    code1: Code, code2: Code)
    requires BranchWf(site, code, last, ks, ds) && Branches(site, e, code, ks, ds, cond)
    requires Relinked(code, code1, ks) && Patched(code1, ds, |code|, NO_REG, |code|, code2)
    ensures BranchWf(site, code2, |code2|, ks, {}) && Branches(site, e, code2, ks, {}, cond)
  {
    BranchWfRelink(site, code, last, ks, ds, code1);
    BranchWfPatch(site, code1, last, ks, ds, code2);
    forall w, r0 ensures BranchAt(w, site, e, code2, ks, {}, cond, r0) {
      assert BranchAt(w, site, e, code, ks, ds, cond, r0);
      GateMeans(w, site, e, code, last, ks, ds, cond, code1, code2, r0);
    }
  }

  /** The test's own jump has joined the kept list. */
  lemma {:induction false} GateLists(site: Site, e: Expr, code: Code, last: int, kl: seq<int>, jl: seq<int>,
                                     dl: seq<int>, cond: bool,
                                     code1: Code, head: int, code2: Code)
    requires BranchWf(site, code, last, JumpSet(kl) + JumpSet(jl), JumpSet(dl))
    requires Branches(site, e, code, JumpSet(kl) + JumpSet(jl), JumpSet(dl), cond)
    requires Relinked(code, code1, JumpSet(kl)) && IsList(code1, head, kl + jl)
    requires Patched(code1, JumpSet(dl), |code|, NO_REG, |code|, code2)
    ensures BranchWf(site, code2, |code2|, JumpSet(kl + jl), {}) && Branches(site, e, code2, JumpSet(kl + jl), {}, cond)
    ensures IsList(code2, head, kl + jl)
  {
    JumpSetAppend(kl, jl);
    GateStep(site, e, code, last, JumpSet(kl) + JumpSet(jl), JumpSet(dl), cond, code1, code2);
    assert forall i | 0 <= i < |kl + jl| :: (kl + jl)[i] in JumpSet(kl + jl);
    PatchKeepsList(code1, JumpSet(dl), |code|, NO_REG, |code|, code2, head, kl + jl);
  }

  // ---------------------------------------------------------------- and, or, not

  /** Well-formedness of `a and b` and of `a or b`: the jumps of the first operand join a list. */
  lemma {:induction false} JoinWf(site: Site, nvar: int, code1: Code, js: set<int>, code2: Code, last: int, k: Kind,
                                  ts: set<int>, fs: set<int>,
                                  ts': set<int>, fs': set<int>, code3: Code)
    requires BranchWf(site, code1, |code1|, js, {})
    requires Wf(Site(site.lo, site.out + js, code1, site.base), nvar, code2, last, k, ts, fs)
    requires (ts' == ts && fs' == fs + js) || (ts' == ts + js && fs' == fs)
    requires Relinked(code2, code3, ts' + fs')
    ensures Wf(site, nvar, code3, last, k, ts', fs')
  {
    var p := Pending(site.out, k, ts', fs');
    assert p == Pending(site.out + js, k, ts, fs);
    SoundRelink(code2, p, site.lo, last, ts' + fs', code3);
    assert forall pc | 0 <= pc < |site.code| :: pc !in ts' && pc !in fs';
    assert Keeps(site.code, code3);
  }

  lemma {:induction false} RelinkTests(code: Code, pending: set<int>, lo: int, last: int, l: set<int>, code': Code,
                                       j: int)
    requires Sound(code, pending, lo, last) && l <= pending && j in pending && Relinked(code, code', l)
    ensures code'[j - 1] == code[j - 1]
  {
    if j - 1 in l { assert j - 1 in pending; }
  }

  lemma {:induction false} RelinkMeans(w: World, site: Site, e: Expr, code: Code, last: int, k: Kind, ts: set<int>,
                                       fs: set<int>, code': Code, r0: Regs)
    requires Sound(code, Pending(site.out, k, ts, fs), site.lo, last)
    requires Relinked(code, code', ts + fs) && EndKept(code, code', k)
    requires DenotesAt(w, site, e, code, k, ts, fs, NO_JUMP, r0)
    ensures DenotesAt(w, site, e, code', k, ts, fs, NO_JUMP, r0)
  {
    var p := Pending(site.out, k, ts, fs);
    RunAtStops(w, code, code', p, site.lo, last, p + Pause(k), State(site.lo, r0));
    forall j | j in ts || j in fs ensures 0 < j < |code| && code'[j - 1] == code[j - 1] {
      RelinkTests(code, p, site.lo, last, ts + fs, code', j);
    }
    Carry(w, site, e, code, k, ts, fs, NO_JUMP, code', Before(w, site, r0), After(w, site, code, k, ts, fs, r0));
  }

  lemma {:induction false} RelinkEnd(site: Site, nvar: int, code: Code, last: int, k: Kind, ts: set<int>, fs: set<int>,
                                     code': Code)
    requires Wf(site, nvar, code, last, k, ts, fs) && Relinked(code, code', ts + fs)
    ensures EndKept(code, code', k)
  {
    if k.VJmp? { RelinkTests(code, Pending(site.out, k, ts, fs), site.lo, last, ts + fs, code', k.pc); }
  }

  /** Only links of the descriptor's own lists changed. */
  lemma {:induction false} RelinkStep(site: Site, nvar: int, e: Expr, code: Code, last: int, k: Kind, ts: set<int>,
                                      fs: set<int>, code': Code)
    requires Wf(site, nvar, code, last, k, ts, fs) && Denotes(site, e, code, k, ts, fs, NO_JUMP)
    requires Relinked(code, code', ts + fs)
    ensures Wf(site, nvar, code', last, k, ts, fs) && Denotes(site, e, code', k, ts, fs, NO_JUMP)
  {
    SoundRelink(code, Pending(site.out, k, ts, fs), site.lo, last, ts + fs, code');
    RelinkEnd(site, nvar, code, last, k, ts, fs, code');
    forall w, r0 ensures DenotesAt(w, site, e, code', k, ts, fs, NO_JUMP, r0) {
      assert DenotesAt(w, site, e, code, k, ts, fs, NO_JUMP, r0);
      RelinkMeans(w, site, e, code, last, k, ts, fs, code', r0);
    }
  }

  lemma {:induction false} JoinAndStep(site: Site, nvar: int, a: Expr, b: Expr, code1: Code, js: set<int>,
                                       code2: Code, last: int, k: Kind, ts: set<int>, fs: set<int>, code3: Code)
    requires Scoped(b, nvar) && nvar <= site.base
    requires BranchWf(site, code1, |code1|, js, {}) && Branches(site, a, code1, js, {}, false)
    requires var mid := Site(site.lo, site.out + js, code1, site.base);
             Wf(mid, nvar, code2, last, k, ts, fs) && Denotes(mid, b, code2, k, ts, fs, NO_JUMP)
    requires Relinked(code2, code3, ts + (fs + js))
    ensures Wf(site, nvar, code3, last, k, ts, fs + js) && Denotes(site, EAnd(a, b), code3, k, ts, fs + js, NO_JUMP)
  {
    JoinWf(site, nvar, code1, js, code2, last, k, ts, fs, ts, fs + js, code2);
    JoinWf(site, nvar, code1, js, code2, last, k, ts, fs, ts, fs + js, code3);
    RelinkEnd(site, nvar, code2, last, k, ts, fs + js, code3);
    forall w, r0 ensures DenotesAt(w, site, EAnd(a, b), code3, k, ts, fs + js, NO_JUMP, r0) {
      var mid := Site(site.lo, site.out + js, code1, site.base);
      assert BranchAt(w, site, a, code1, js, {}, false, r0) && DenotesAt(w, mid, b, code2, k, ts, fs, NO_JUMP, r0);
      JoinAndMeans(w, site, nvar, a, b, code1, js, code2, k, ts, fs, r0);
      RelinkMeans(w, site, EAnd(a, b), code2, last, k, ts, fs + js, code3, r0);
    }
  }

  lemma {:induction false} JoinOrStep(site: Site, nvar: int, a: Expr, b: Expr, code1: Code, js: set<int>,
                                      code2: Code, last: int, k: Kind, ts: set<int>, fs: set<int>, code3: Code)
    requires Scoped(b, nvar) && nvar <= site.base
    requires BranchWf(site, code1, |code1|, js, {}) && Branches(site, a, code1, js, {}, true)
    requires var mid := Site(site.lo, site.out + js, code1, site.base);
             Wf(mid, nvar, code2, last, k, ts, fs) && Denotes(mid, b, code2, k, ts, fs, NO_JUMP)
    requires Relinked(code2, code3, (ts + js) + fs)
    ensures Wf(site, nvar, code3, last, k, ts + js, fs) && Denotes(site, EOr(a, b), code3, k, ts + js, fs, NO_JUMP)
  {
    JoinWf(site, nvar, code1, js, code2, last, k, ts, fs, ts + js, fs, code2);
    JoinWf(site, nvar, code1, js, code2, last, k, ts, fs, ts + js, fs, code3);
    RelinkEnd(site, nvar, code2, last, k, ts + js, fs, code3);
    forall w, r0 ensures DenotesAt(w, site, EOr(a, b), code3, k, ts + js, fs, NO_JUMP, r0) {
      var mid := Site(site.lo, site.out + js, code1, site.base);
      assert BranchAt(w, site, a, code1, js, {}, true, r0) && DenotesAt(w, mid, b, code2, k, ts, fs, NO_JUMP, r0);
      JoinOrMeans(w, site, nvar, a, b, code1, js, code2, k, ts, fs, r0);
      RelinkMeans(w, site, EOr(a, b), code2, last, k, ts + js, fs, code3, r0);
    }
  }

  ghost predicate NotRaw(site: Site, e: Expr, code: Code, k: Kind, ts: set<int>, fs: set<int>) {
    forall w, r0 :: NotRawAt(w, site, e, code, k, ts, fs, r0)
  }

  lemma {:induction false} NotConstStep(site: Site, nvar: int, e: Expr, code: Code, last: int, k: Kind, k': Kind,
                                        ts: set<int>, fs: set<int>)
    requires Wf(site, nvar, code, last, k, ts, fs) && Denotes(site, e, code, k, ts, fs, NO_JUMP)
    requires if k.VNil? || k.VFalse? then k' == VTrue else (k.VTrue? || k.VKInt? || k.VKStr?) && k' == VFalse
    ensures Wf(site, nvar, code, last, k', ts, fs) && NotRaw(site, e, code, k', ts, fs)
  {
    assert Pending(site.out, k', ts, fs) == Pending(site.out, k, ts, fs);
    forall w, r0 ensures NotRawAt(w, site, e, code, k', ts, fs, r0) {
      assert DenotesAt(w, site, e, code, k, ts, fs, NO_JUMP, r0);
      NotConstMeans(w, site, e, code, k, k', ts, fs, r0);
    }
  }

  lemma {:induction false} NotCmpStep(site: Site, nvar: int, e: Expr, code: Code, last: int, pc: int, ts: set<int>,
                                      fs: set<int>)
    requires Wf(site, nvar, code, last, VJmp(pc), ts, fs) && Denotes(site, e, code, VJmp(pc), ts, fs, NO_JUMP)
    ensures var code' := code[pc - 1 := Negated(code[pc - 1])];
            Wf(site, nvar, code', last, VJmp(pc), ts, fs) && NotRaw(site, e, code', VJmp(pc), ts, fs)
  {
    var code' := code[pc - 1 := Negated(code[pc - 1])];
    assert InstrOk(code, Pending(site.out, VJmp(pc), ts, fs), last, pc - 1);
    SoundReplace(code, Pending(site.out, VJmp(pc), ts, fs), site.lo, last, pc - 1, code'[pc - 1]);
    forall w, r0 ensures NotRawAt(w, site, e, code', VJmp(pc), ts, fs, r0) {
      assert DenotesAt(w, site, e, code, VJmp(pc), ts, fs, NO_JUMP, r0);
      NotCmpMeans(w, site, e, code, last, pc, ts, fs, r0);
    }
  }

  lemma {:induction false} NotRegStep(site: Site, nvar: int, e: Expr, code: Code, last: int, r: int, ts: set<int>,
                                      fs: set<int>)
    requires Wf(site, nvar, code, last, VNonReloc(r), ts, fs) && Denotes(site, e, code, VNonReloc(r), ts, fs, NO_JUMP)
    ensures var code', k := code + [OpNot(0, r)], VReloc(|code|);
            Wf(site, nvar, code', last, k, ts, fs) && NotRaw(site, e, code', k, ts, fs)
  {
    var code', k := code + [OpNot(0, r)], VReloc(|code|);
    assert Pending(site.out, k, ts, fs) == Pending(site.out, VNonReloc(r), ts, fs);
    SoundEmit(code, Pending(site.out, VNonReloc(r), ts, fs), site.lo, last, OpNot(0, r));
    forall w, r0 ensures NotRawAt(w, site, e, code', k, ts, fs, r0) {
      assert DenotesAt(w, site, e, code, VNonReloc(r), ts, fs, NO_JUMP, r0);
      NotRegMeans(w, site, e, code, last, r, ts, fs, r0);
    }
  }

  lemma {:induction false} NotDropWf(site: Site, nvar: int, code: Code, last: int, k: Kind, ts: set<int>, fs: set<int>,
                                     code': Code)
    requires Wf(site, nvar, code, last, k, ts, fs) && Dropped(code, ts + fs, code')
    ensures Wf(site, nvar, code', last, k, fs, ts) && EndKept(code, code', k)
    ensures forall j | j in ts || j in fs :: code'[j] == code[j]
  {
    var p := Pending(site.out, k, ts, fs);
    assert Pending(site.out, k, fs, ts) == p;
    SoundDrop(code, p, site.lo, last, ts + fs, code');
    forall j | j in ts || j in fs ensures code'[j] == code[j] { assert j in p; }
  }

  lemma {:induction false} NotDropStep(site: Site, nvar: int, e: Expr, code: Code, last: int, k: Kind, ts: set<int>,
                                       fs: set<int>, code': Code)
    requires Wf(site, nvar, code, last, k, ts, fs) && NotRaw(site, e, code, k, ts, fs) && Dropped(code, ts + fs, code')
    ensures Wf(site, nvar, code', last, k, fs, ts) && Denotes(site, ENot(e), code', k, fs, ts, NO_JUMP)
    ensures forall j | j in ts || j in fs :: code'[j] == code[j]
  {
    NotDropWf(site, nvar, code, last, k, ts, fs, code');
    forall w, r0 ensures DenotesAt(w, site, ENot(e), code', k, fs, ts, NO_JUMP, r0) {
      assert NotRawAt(w, site, e, code, k, ts, fs, r0);
      NotDropRun(w, site, code, last, k, ts, fs, code', r0);
      NotDropMeans(w, site, e, code, k, ts, fs, code', r0);
    }
  }

  /** codenot before removevalues: the value is negated, but the lists are not swapped yet. */
  ghost predicate Flipped(site: Site, nvar: int, e: Expr, code: Code, last: int, v: ExpDesc, tl: seq<int>,
                          fl: seq<int>) {
    && Wf(site, nvar, code, last, v.k, JumpSet(tl), JumpSet(fl)) && NotRaw(site, e, code, v.k, JumpSet(tl), JumpSet(fl))
    && IsList(code, v.t, tl) && IsList(code, v.f, fl)
  }

  lemma {:induction false} FlipCmpStep(site: Site, nvar: int, e: Expr, code: Code, last: int, v: ExpDesc, tl: seq<int>,
                                       fl: seq<int>, code': Code)
    requires v.k.VJmp? && Wf(site, nvar, code, last, v.k, JumpSet(tl), JumpSet(fl))
    requires Denotes(site, e, code, v.k, JumpSet(tl), JumpSet(fl), NO_JUMP) && IsList(code, v.t, tl)
             && IsList(code, v.f, fl)
    requires code' == code[v.k.pc - 1 := Negated(code[v.k.pc - 1])]
    ensures Flipped(site, nvar, e, code', last, v, tl, fl)
  {
    NotCmpStep(site, nvar, e, code, last, v.k.pc, JumpSet(tl), JumpSet(fl));
    CmpLists(code, code', v.k.pc, v.t, tl, v.f, fl);
  }

  lemma {:induction false} FlipRegStep(site: Site, nvar: int, e: Expr, code: Code, last: int, v: ExpDesc, tl: seq<int>,
                                       fl: seq<int>, code': Code)
    requires v.k.VNonReloc? && Wf(site, nvar, code, last, v.k, JumpSet(tl), JumpSet(fl))
    requires Denotes(site, e, code, v.k, JumpSet(tl), JumpSet(fl), NO_JUMP) && IsList(code, v.t, tl)
             && IsList(code, v.f, fl)
    requires code' == code + [OpNot(0, v.k.r)]
    ensures Flipped(site, nvar, e, code', last, ExpDesc(VReloc(|code|), v.t, v.f), tl, fl)
  {
    NotRegStep(site, nvar, e, code, last, v.k.r, JumpSet(tl), JumpSet(fl));
    ListKept(code, code', v.t, tl);
    ListKept(code, code', v.f, fl);
  }

  lemma {:induction false} DroppedLists(code: Code, s: set<int>, code': Code, head: int, l: seq<int>)
    requires Dropped(code, s, code') && IsList(code, head, l)
    ensures IsList(code', head, l)
  {
  }

  lemma {:induction false} DroppedTwice(code: Code, a: set<int>, b: set<int>, code1: Code, code2: Code)
    requires Dropped(code, a, code1) && Dropped(code1, b, code2)
    ensures Dropped(code, a + b, code2)
  {
  }

  /** removevalues on both lists, which then change their roles. */
  lemma {:induction false} SwapStep(site: Site, nvar: int, e: Expr, code: Code, last: int, v: ExpDesc, tl: seq<int>,
                                    fl: seq<int>, code1: Code, code2: Code)
    requires Flipped(site, nvar, e, code, last, v, tl, fl)
    requires Dropped(code, JumpSet(tl), code1) && Dropped(code1, JumpSet(fl), code2)
    ensures Wf(site, nvar, code2, last, v.k, JumpSet(fl), JumpSet(tl))
            && Denotes(site, ENot(e), code2, v.k, JumpSet(fl), JumpSet(tl), NO_JUMP)
    ensures IsList(code2, v.t, tl) && IsList(code2, v.f, fl)
  {
    DroppedTwice(code, JumpSet(tl), JumpSet(fl), code1, code2);
    DroppedLists(code, JumpSet(tl) + JumpSet(fl), code2, v.t, tl);
    DroppedLists(code, JumpSet(tl) + JumpSet(fl), code2, v.f, fl);
    NotDropStep(site, nvar, e, code, last, v.k, JumpSet(tl), JumpSet(fl), code2);
  }

  // ---------------------------------------------------------------- and, or

  /** Where the second operand of `and` or `or` is compiled: the jumps `l` of the first one are pending. */
  ghost function Inner(site: Site, code: Code, l: seq<int>): Site {
    Site(site.lo, site.out + JumpSet(l), code, site.base)
  }

  /** Code for an expression may start at the site. */
  ghost predicate Starts(site: Site, last: int) {
    && 0 <= last && Sound(site.code, site.out, site.lo, last) && Anchored(site.code, site.lo, last)
    && forall j | j in site.out :: j < |site.code|
  }

  lemma {:induction false} InnerStarts(site: Site, code: Code, l: seq<int>)
    requires BranchWf(site, code, |code|, JumpSet(l), {})
    ensures Starts(Inner(site, code, l), |code|)
  {
    assert site.out + JumpSet(l) + {} == site.out + JumpSet(l);
  }

  lemma {:induction false} SecondStarts(site: Site, nvar: int, code: Code, last: int, k: Kind, base: int)
    requires Wf(site, nvar, code, last, k, {}, {}) && Simple(k)
    ensures Starts(Site(site.lo, site.out, code, base), last)
  {
    assert Pending(site.out, k, {}, {}) == site.out;
  }

  /** A list in front of an expression's code stays intact and away from the expression's own jumps. */
  lemma {:induction false} OuterList(mid: Site, code: Code, head: int, l: seq<int>, inner: seq<int>)
    requires IsList(mid.code, head, l) && Keeps(mid.code, code) && forall j | j in JumpSet(inner) :: |mid.code| < j
    ensures IsList(code, head, l)
    ensures forall i, j | 0 <= i < |inner| && 0 <= j < |l| :: inner[i] != l[j]
  {
    assert forall i | 0 <= i < |inner| :: inner[i] in JumpSet(inner);
  }

  /** luaK_concat changed at most the last link of `s`. */
  ghost predicate Linked(code: Code, code': Code, s: seq<int>) {
    |code'| == |code| &&
    forall pc | 0 <= pc < |code| :: code'[pc] == code[pc] || (s != [] && pc == s[|s| - 1] && code'[pc].OpJmp?)
  }

  lemma {:induction false} LinkedApart(code: Code, code': Code, s: seq<int>, head: int, l: seq<int>, all: set<int>)
    requires Linked(code, code', s) && IsList(code, head, l) && JumpSet(l) !! JumpSet(s) && JumpSet(s) <= all
    ensures IsList(code', head, l) && Relinked(code, code', all)
  {
    LastIn(s);
    forall i | 0 <= i < |l| ensures code'[l[i]] == code[l[i]] {
      assert l[i] in JumpSet(l);
    }
  }

  lemma {:induction false} AndStep(site: Site, nvar: int, a: Expr, b: Expr, code1: Code, l: seq<int>,
                                   code2: Code, last: int, k: Kind, t: int, tl: seq<int>, fl: seq<int>, code3: Code)
    requires Scoped(b, nvar) && nvar <= site.base
    requires BranchWf(site, code1, |code1|, JumpSet(l), {}) && Branches(site, a, code1, JumpSet(l), {}, false)
    requires var mid := Inner(site, code1, l);
             Wf(mid, nvar, code2, last, k, JumpSet(tl), JumpSet(fl))
                 && Denotes(mid, b, code2, k, JumpSet(tl), JumpSet(fl), NO_JUMP)
    requires Linked(code2, code3, fl) && IsList(code2, t, tl)
    ensures Wf(site, nvar, code3, last, k, JumpSet(tl), JumpSet(fl + l))
    ensures Denotes(site, EAnd(a, b), code3, k, JumpSet(tl), JumpSet(fl + l), NO_JUMP)
    ensures IsList(code3, t, tl)
  {
    var ts, fs, js := JumpSet(tl), JumpSet(fl), JumpSet(l);
    LinkedApart(code2, code3, fl, t, tl, ts + (fs + js));
    JoinAndStep(site, nvar, a, b, code1, js, code2, last, k, ts, fs, code3);
    JumpSetAppend(fl, l);
  }

  lemma {:induction false} OrStep(site: Site, nvar: int, a: Expr, b: Expr, code1: Code, l: seq<int>,
                                  code2: Code, last: int, k: Kind, f: int, tl: seq<int>, fl: seq<int>, code3: Code)
    requires Scoped(b, nvar) && nvar <= site.base
    requires BranchWf(site, code1, |code1|, JumpSet(l), {}) && Branches(site, a, code1, JumpSet(l), {}, true)
    requires var mid := Inner(site, code1, l);
             Wf(mid, nvar, code2, last, k, JumpSet(tl), JumpSet(fl))
                 && Denotes(mid, b, code2, k, JumpSet(tl), JumpSet(fl), NO_JUMP)
    requires Linked(code2, code3, tl) && IsList(code2, f, fl)
    ensures Wf(site, nvar, code3, last, k, JumpSet(tl + l), JumpSet(fl))
    ensures Denotes(site, EOr(a, b), code3, k, JumpSet(tl + l), JumpSet(fl), NO_JUMP)
    ensures IsList(code3, f, fl)
  {
    var ts, fs, js := JumpSet(tl), JumpSet(fl), JumpSet(l);
    LinkedApart(code2, code3, tl, f, fl, (ts + js) + fs);
    JoinOrStep(site, nvar, a, b, code1, js, code2, last, k, ts, fs, code3);
    JumpSetAppend(tl, l);
  }

  lemma {:induction false} ParenStep(site: Site, e: Expr, code: Code, k: Kind, ts: set<int>, fs: set<int>)
    requires Denotes(site, e, code, k, ts, fs, NO_JUMP)
    ensures Denotes(site, EParen(e), code, k, ts, fs, NO_JUMP)
  {
    forall w, r0 ensures DenotesAt(w, site, EParen(e), code, k, ts, fs, NO_JUMP, r0) {
      assert DenotesAt(w, site, e, code, k, ts, fs, NO_JUMP, r0);
    }
  }

  // ---------------------------------------------------------------- exp2reg

  ghost predicate ReadyAll(site: Site, e: Expr, code: Code, ts: set<int>, fs: set<int>, reg: int) {
    forall w, r0 :: ReadyAt(w, site, e, code, ts, fs, reg, r0)
  }

  lemma {:induction false} ReadyRegStep(site: Site, nvar: int, e: Expr, code: Code, last: int, ts: set<int>,
                                        fs: set<int>, reg: int)
    requires Wf(site, nvar, code, last, VNonReloc(reg), ts, fs) && Denotes(site, e, code, VNonReloc(reg), ts, fs, reg)
    ensures BranchWf(site, code, last, ts, fs) && ReadyAll(site, e, code, ts, fs, reg)
  {
    assert Pending(site.out, VNonReloc(reg), ts, fs) == site.out + ts + fs;
    forall w, r0 ensures ReadyAt(w, site, e, code, ts, fs, reg, r0) {
      assert DenotesAt(w, site, e, code, VNonReloc(reg), ts, fs, reg, r0);
      ReadyReg(w, site, e, code, ts, fs, reg, r0);
    }
  }

  /** A jump over the two boolean loads, for a value that is in the register already. */
  lemma {:induction false} ReadyAroundStep(site: Site, e: Expr, code: Code, last: int, ts: set<int>, fs: set<int>,
                                           reg: int)
    requires BranchWf(site, code, last, ts, fs) && ReadyAll(site, e, code, ts, fs, reg)
    ensures var code' := code + [OpJmp(2), OpLFalseSkip(reg), OpLoadTrue(reg)];
            BranchWf(site, code', |code'|, ts, fs) && ReadyAll(site, e, code', ts, fs, reg)
  {
    var code' := code + [OpJmp(2), OpLFalseSkip(reg), OpLoadTrue(reg)];
    forall w, r0 ensures ReadyAt(w, site, e, code', ts, fs, reg, r0) {
      assert ReadyAt(w, site, e, code, ts, fs, reg, r0);
      ReadyAround(w, site, e, code, last, ts, fs, reg, r0);
    }
    SoundAround(code, site.out + ts + fs, site.lo, last, reg);
  }

  lemma {:induction false} ReadyCmpStep(site: Site, nvar: int, e: Expr, code: Code, last: int, pc: int, ts: set<int>,
                                        fs: set<int>, reg: int)
    requires Wf(site, nvar, code, last, VJmp(pc), ts, fs) && Denotes(site, e, code, VJmp(pc), ts, fs, NO_JUMP)
    ensures var code' := code + [OpLFalseSkip(reg), OpLoadTrue(reg)];
            BranchWf(site, code', |code'|, ts + {pc}, fs) && ReadyAll(site, e, code', ts + {pc}, fs, reg)
  {
    var code' := code + [OpLFalseSkip(reg), OpLoadTrue(reg)];
    assert Pending(site.out, VJmp(pc), ts, fs) == site.out + (ts + {pc}) + fs;
    forall w, r0 ensures ReadyAt(w, site, e, code', ts + {pc}, fs, reg, r0) {
      assert DenotesAt(w, site, e, code, VJmp(pc), ts, fs, NO_JUMP, r0);
      ReadyCmp(w, site, e, code, last, pc, ts, fs, reg, r0);
    }
    SoundBools(code, site.out + (ts + {pc}) + fs, site.lo, last, reg);
  }

  lemma {:induction false} FinishKeeps(site: Site, code: Code, last: int, ts: set<int>, fs: set<int>, reg: int, pf: int,
                                       pt: int, code1: Code, code2: Code)
    requires BranchWf(site, code, last, ts, fs)
    requires Patched(code, fs, |code|, reg, pf, code1) && Patched(code1, ts, |code|, reg, pt, code2)
    ensures Keeps(site.code, code2) && Anchored(code2, site.lo, |code2|)
  {
    forall pc | 0 <= pc < |site.code| ensures code2[pc] == code[pc] {
      assert code1[pc] == PatchedAt(code, fs, |code|, reg, pf, pc);
      assert code2[pc] == PatchedAt(code1, ts, |code|, reg, pt, pc);
    }
  }

  /** exp2reg, once the boolean loads are in place: both lists are patched and the value is in reg. */
  lemma {:induction false} FinishStep(site: Site, nvar: int, e: Expr, code: Code, ts: set<int>, fs: set<int>, reg: int,
                                      pf: int, pt: int,
                                      code1: Code, code2: Code)
    requires BranchWf(site, code, |code|, ts, fs) && ReadyAll(site, e, code, ts, fs, reg) && 0 <= reg < NO_REG
    requires Patched(code, fs, |code|, reg, pf, code1) && Patched(code1, ts, |code|, reg, pt, code2)
    requires (AllSet(code, fs) && AllSet(code, ts)) ||
             (LoadsBoolAt(code, reg, false, pf) && LoadsBoolAt(code, reg, true, pt)
              && forall j | j in fs || j in ts :: j < pf)
    ensures Wf(site, nvar, code2, |code2|, VNonReloc(reg), {}, {})
    ensures Denotes(site, e, code2, VNonReloc(reg), {}, {}, reg)
  {
    assert Pending(site.out, VNonReloc(reg), {}, {}) == site.out;
    FinishKeeps(site, code, |code|, ts, fs, reg, pf, pt, code1, code2);
    forall w, r0 ensures DenotesAt(w, site, e, code2, VNonReloc(reg), {}, {}, reg, r0) {
      assert ReadyAt(w, site, e, code, ts, fs, reg, r0);
      FinishRun(w, site, code, ts, fs, reg, pf, pt, code1, code2, r0);
      FinishMeans(w, site, e, code, ts, fs, reg, code2, r0);
    }
    FinishSound(site, code, ts, fs, reg, pf, pt, code1, code2);
  }

  /** The targets exp2reg uses are right for these lists: none of them needs a boolean load, or the
      loads end the code. */
  ghost predicate ExitTargets(code: Code, reg: int, pf: int, pt: int, ts: set<int>, fs: set<int>) {
    if pf == NO_JUMP then pt == NO_JUMP && AllSet(code, fs) && AllSet(code, ts)
    else
      && LoadsBoolAt(code, reg, false, pf) && LoadsBoolAt(code, reg, true, pt)
      && forall j | j in fs || j in ts :: j < pf
  }

  /** The boolean loads directly after a comparison whose jump has joined the true list. */
  lemma {:induction false} TestBoolsStep(site: Site, nvar: int, e: Expr, code: Code, last: int, pc: int, ts: set<int>,
                                         ts': set<int>, fs: set<int>, reg: int)
    requires Wf(site, nvar, code, last, VJmp(pc), ts, fs) && Denotes(site, e, code, VJmp(pc), ts, fs, NO_JUMP)
    requires ts' == ts + {pc}
    ensures var code' := code + [OpLFalseSkip(reg), OpLoadTrue(reg)];
            && BranchWf(site, code', |code'|, ts', fs) && ReadyAll(site, e, code', ts', fs, reg)
            && ExitTargets(code', reg, |code|, |code| + 1, ts', fs)
  {
    ReadyCmpStep(site, nvar, e, code, last, pc, ts, fs, reg);
  }

  /** A comparison ends the code, and with the two boolean loads behind it all exits are ready. */
  ghost predicate TestOpen(site: Site, e: Expr, code: Code, t: int, tl: seq<int>, f: int, fl: seq<int>, reg: int) {
    var code' := code + [OpLFalseSkip(reg), OpLoadTrue(reg)];
    && IsList(code, t, tl) && IsList(code, f, fl)
    && |code| > 1 && code[|code| - 1].OpJmp? && IsCmp(code[|code| - 2]) && tl != [] && tl[|tl| - 1] == |code| - 1
    && BranchWf(site, code', |code'|, JumpSet(tl), JumpSet(fl))
       && ReadyAll(site, e, code', JumpSet(tl), JumpSet(fl), reg)
    && ExitTargets(code', reg, |code|, |code| + 1, JumpSet(tl), JumpSet(fl))
  }

  /** A comparison's own jump joins its true list. */
  lemma {:induction false} JoinJumpStep(site: Site, nvar: int, e: Expr, code: Code, last: int, v: ExpDesc, tl: seq<int>,
                                        fl: seq<int>, code1: Code, t: int, reg: int)
    requires v.k.VJmp? && Wf(site, nvar, code, last, v.k, JumpSet(tl), JumpSet(fl))
             && Denotes(site, e, code, v.k, JumpSet(tl), JumpSet(fl), NO_JUMP)
    requires Linked(code, code1, tl) && IsList(code, v.f, fl) && IsList(code1, t, tl + [v.k.pc])
    ensures TestOpen(site, e, code1, t, tl + [v.k.pc], v.f, fl, reg)
  {
    var pc, ts, fs := v.k.pc, JumpSet(tl), JumpSet(fl);
    LinkedApart(code, code1, tl, v.f, fl, ts + fs);
    RelinkStep(site, nvar, e, code, last, v.k, ts, fs, code1);
    JumpSetAppend(tl, [pc]);
    JumpSetOne(pc);
    TestBoolsStep(site, nvar, e, code1, last, pc, ts, JumpSet(tl + [pc]), fs, reg);
  }

  lemma {:induction false} LastIn(tl: seq<int>)
    ensures tl == [] || tl[|tl| - 1] in JumpSet(tl)
  {
  }

  lemma {:induction false} FinishFirst(site: Site, code: Code, t: int, tl: seq<int>, fl: seq<int>, reg: int, pf: int,
                                       pt: int, code1: Code)
    requires BranchWf(site, code, |code|, JumpSet(tl), JumpSet(fl)) && IsList(code, t, tl)
    requires ExitTargets(code, reg, pf, pt, JumpSet(tl), JumpSet(fl))
    requires Patched(code, JumpSet(fl), |code|, reg, pf, code1)
    ensures IsList(code1, t, tl) && (pt == NO_JUMP ==> AllSet(code1, JumpSet(tl)))
  {
    assert forall i | 0 <= i < |tl| :: tl[i] in JumpSet(tl);
    PatchKeepsList(code, JumpSet(fl), |code|, reg, pf, code1, t, tl);
    PatchFirst(site, code, JumpSet(tl), JumpSet(fl), reg, pf, pt, code1);
  }

  lemma {:induction false} FinishAll(site: Site, nvar: int, e: Expr, code: Code, tl: seq<int>, fl: seq<int>, reg: int,
                                     pf: int, pt: int,
                                     code1: Code, code2: Code)
    requires BranchWf(site, code, |code|, JumpSet(tl), JumpSet(fl))
             && ReadyAll(site, e, code, JumpSet(tl), JumpSet(fl), reg)
    requires ExitTargets(code, reg, pf, pt, JumpSet(tl), JumpSet(fl)) && 0 <= reg < NO_REG
    requires Patched(code, JumpSet(fl), |code|, reg, pf, code1) && Patched(code1, JumpSet(tl), |code|, reg, pt, code2)
    ensures Wf(site, nvar, code2, |code2|, VNonReloc(reg), JumpSet([]), JumpSet([]))
    ensures Denotes(site, e, code2, VNonReloc(reg), JumpSet([]), JumpSet([]), reg)
  {
    JumpSetOne(0);
    FinishStep(site, nvar, e, code, JumpSet(tl), JumpSet(fl), reg, pf, pt, code1, code2);
  }

  // ---------------------------------------------------------------- comparisons

  ghost predicate PairAll(site: Site, a: Expr, ka: Kind, b: Expr, kb: Kind, code: Code)
    requires Simple(ka) && Simple(kb)
  {
    forall w, r0 :: PairAt(w, site, a, ka, b, kb, code, r0)
  }

  lemma {:induction false} PairStep(site: Site, nvar: int, a: Expr, ka: Kind, b: Expr, kb: Kind, code1: Code,
                                    base1: int, code2: Code)
    requires Simple(ka) && Simple(kb) && Below(ka, base1) && nvar <= site.base <= base1 && Scoped(b, nvar)
    requires Denotes(site, a, code1, ka, {}, {}, NO_JUMP)
    requires Denotes(Site(site.lo, site.out, code1, base1), b, code2, kb, {}, {}, NO_JUMP)
    requires |code1| !in site.out
    ensures PairAll(site, a, ka, b, kb, code2)
  {
    forall w, r0 ensures PairAt(w, site, a, ka, b, kb, code2, r0) {
      var mid := Site(site.lo, site.out, code1, base1);
      assert DenotesAt(w, site, a, code1, ka, {}, {}, NO_JUMP, r0)
             && DenotesAt(w, mid, b, code2, kb, {}, {}, NO_JUMP, r0);
      PairMeans(w, site, nvar, a, ka, b, kb, code1, base1, code2, r0);
    }
  }

  lemma {:induction false} PairLoadStep(site: Site, a: Expr, i: int, b: Expr, kb: Kind, code1: Code, base1: int, r: int,
                                        code2: Code)
    requires Simple(kb) && Below(kb, base1) && site.base <= base1
    requires PairAll(site, a, VKInt(i), b, kb, code1)
    requires Denotes(Site(site.lo, site.out, code1, base1), EInt(i), code2, VNonReloc(r), {}, {}, NO_JUMP)
    requires |code1| !in site.out
    ensures PairAll(site, a, VNonReloc(r), b, kb, code2)
  {
    forall w, r0 ensures PairAt(w, site, a, VNonReloc(r), b, kb, code2, r0) {
      var mid := Site(site.lo, site.out, code1, base1);
      assert PairAt(w, site, a, VKInt(i), b, kb, code1, r0)
             && DenotesAt(w, mid, EInt(i), code2, VNonReloc(r), {}, {}, NO_JUMP, r0);
      PairLoadMeans(w, site, a, i, b, kb, code1, base1, r, code2, r0);
    }
  }

  lemma {:induction false} OrderStep(site: Site, nvar: int, e: Expr, op: CmpOp, a: Expr, ka: Kind, b: Expr, kb: Kind,
                                     code: Code, last: int, i: Instr)
    requires BranchWf(site, code, last, {}, {}) && Simple(ka) && Simple(kb) && PairAll(site, a, ka, b, kb, code)
    requires Fits(i)
    requires (e == ELess(op, a, b) && Compares(i, op, ka, kb)) || (e == EGreater(op, a, b) && Compares(i, op, kb, ka))
    ensures var code', k := code + [i, OpJmp(NO_JUMP)], VJmp(|code| + 1);
            Wf(site, nvar, code', last, k, {}, {}) && Denotes(site, e, code', k, {}, {}, NO_JUMP)
  {
    var code', k := code + [i, OpJmp(NO_JUMP)], VJmp(|code| + 1);
    assert site.out + {} + {} == site.out && Pending(site.out, k, {}, {}) == site.out + {|code| + 1};
    SoundEmitTest(code, site.out, site.lo, last, i);
    forall w, r0 ensures DenotesAt(w, site, e, code', k, {}, {}, NO_JUMP, r0) {
      assert PairAt(w, site, a, ka, b, kb, code, r0);
      OrderMeans(w, site, e, op, a, ka, b, kb, code, last, i, r0);
    }
  }

  /** The first operand of a comparison is ready where `code` ends: a constant, or a register below `base`. */
  ghost predicate FirstReady(site: Site, nvar: int, a: Expr, code: Code, k: Kind, base: int) {
    && Simple(k) && Below(k, base) && Denotes(site, a, code, k, {}, {}, NO_JUMP)
    && Keeps(site.code, code) && site.lo <= |site.code| && (forall j | j in site.out :: j < |site.code|)
    && base == site.base + (if k.VNonReloc? && k.r >= nvar then 1 else 0)
    && (k.VNonReloc? && k.r >= nvar ==> k.r == site.base)
  }

  lemma {:induction false} FirstStep(site: Site, nvar: int, a: Expr, code: Code, last: int, k: Kind, base: int)
    requires Wf(site, nvar, code, last, k, {}, {}) && Denotes(site, a, code, k, {}, {}, NO_JUMP) && Simple(k)
    requires 0 <= nvar <= site.base && base == site.base + (if k.VNonReloc? && k.r >= nvar then 1 else 0)
    requires k.VNonReloc? && k.r >= nvar ==> k.r == site.base
    ensures FirstReady(site, nvar, a, code, k, base)
  {
  }

  /** Both operands of a comparison are ready where `code` ends. */
  ghost predicate BothReady(site: Site, a: Expr, ka: Kind, b: Expr, kb: Kind, code: Code, last: int) {
    BranchWf(site, code, last, {}, {}) && Simple(ka) && Simple(kb) && PairAll(site, a, ka, b, kb, code)
  }

  lemma {:induction false} KeepsThrough(c0: Code, c1: Code, c2: Code)
    requires Keeps(c0, c1) && Keeps(c1, c2)
    ensures Keeps(c0, c2)
  {
  }

  lemma {:induction false} BothStep(site: Site, nvar: int, a: Expr, ka: Kind, b: Expr, kb: Kind, code1: Code,
                                    base1: int, code2: Code, last: int)
    requires FirstReady(site, nvar, a, code1, ka, base1) && 0 <= nvar <= site.base && Scoped(b, nvar) && Simple(kb)
    requires var mid := Site(site.lo, site.out, code1, base1);
             Wf(mid, nvar, code2, last, kb, {}, {}) && Denotes(mid, b, code2, kb, {}, {}, NO_JUMP)
    ensures BothReady(site, a, ka, b, kb, code2, last)
  {
    KeepsThrough(site.code, code1, code2);
    assert Pending(site.out, kb, {}, {}) == site.out + {} + {};
    PairStep(site, nvar, a, ka, b, kb, code1, base1, code2);
  }

  lemma {:induction false} LoadFirstStep(site: Site, nvar: int, a: Expr, i: int, b: Expr, kb: Kind, code1: Code,
                                         last1: int, r: int, code2: Code, last: int)
    requires BothReady(site, a, VKInt(i), b, kb, code1, last1) && Below(kb, site.base)
    requires var mid := Site(site.lo, site.out, code1, site.base);
             Wf(mid, nvar, code2, last, VNonReloc(r), {}, {})
                 && Denotes(mid, EInt(i), code2, VNonReloc(r), {}, {}, NO_JUMP)
    ensures BothReady(site, a, VNonReloc(r), b, kb, code2, last)
  {
    KeepsThrough(site.code, code1, code2);
    assert Pending(site.out, VNonReloc(r), {}, {}) == site.out + {} + {};
    PairLoadStep(site, a, i, b, kb, code1, site.base, r, code2);
  }
}
