/** The slice of the Lua virtual machine that short-circuit code runs on.

    Jumps whose destination is not known yet are "pending": `Run` stops in front of them, so
    half-finished code has a meaning that later patches refine.  Everything the expression
    generator emits jumps forward, which is why `Run` needs no fuel.
 */
module LuaVm {

  datatype Value = Nil | False | True | Int(i: int) | Str(s: string)

  predicate Truthy(v: Value) {
    v != Nil && v != False
  }

  function Bool(b: bool): Value {
    if b then True else False
  }

  datatype CmpOp = Lt | Le

  /** What running code may observe besides its registers: the upvalues, and how two values
      compare.  Both are arbitrary. */
  datatype World = World(up: int -> Value, rel: (CmpOp, Value, Value) -> bool)

  const NO_JUMP := -1
  const MAX_FSTACK := 255
  const NO_REG := MAX_FSTACK
  const OFFSET_sJ := 0xFF_FFFF
  const MAXARG_sJ := 0x1FF_FFFF

  datatype Instr =
    | OpMove(a: int, b: int)
    | OpLoadNil(a: int, n: nat)
    | OpLoadFalse(a: int)
    | OpLFalseSkip(a: int)
    | OpLoadTrue(a: int)
    | OpLoadI(a: int, i: int)
    | OpLoadK(a: int, v: Value)
    | OpGetUpval(a: int, b: int)
    | OpNot(a: int, b: int)
    | OpTest(a: int, k: bool)
    | OpTestSet(a: int, b: int, k: bool)
    | OpCmp(op: CmpOp, a: int, b: int, k: bool)
    | OpCmpI(op: CmpOp, inv: bool, a: int, i: int, k: bool)
    | OpJmp(sj: int)
    | OpOther(code: int)

  type Code = seq<Instr>

  /** Registers; one that was never written reads as nil. */
  type Regs = map<int, Value>

  function Get(r: Regs, x: int): Value {
    if x in r then r[x] else Nil
  }

  predicate InSpan(x: int, a: int, n: int) {
    a <= x <= a + n
  }

  function Niled(r: Regs, a: int, n: int): Regs {
    r + (map x | a <= x <= a + n && InSpan(x, a, n) :: Nil)
  }

  ghost predicate Agree(r: Regs, r': Regs, n: int) {
    forall x | 0 <= x < n :: Get(r, x) == Get(r', x)
  }

  /** testTMode: the instruction decides whether the jump after it is taken. */
  predicate IsTest(i: Instr) {
    i.OpTest? || i.OpTestSet? || i.OpCmp? || i.OpCmpI?
  }

  /** The condition a test instruction evaluates; it jumps when this equals its k. */
  function Holds(w: World, i: Instr, r: Regs): bool
    requires IsTest(i)
  {
    match i
    case OpTest(a, _) => Truthy(Get(r, a))
    case OpTestSet(_, b, _) => Truthy(Get(r, b))
    case OpCmp(op, a, b, _) => w.rel(op, Get(r, a), Get(r, b))
    case OpCmpI(op, inv, a, im, _) => if inv then w.rel(op, Int(im), Get(r, a)) else w.rel(op, Get(r, a), Int(im))
  }

  /** Register effect of an instruction that always falls through to the next one. */
  function Effect(w: World, i: Instr, r: Regs): Regs {
    match i
    case OpMove(a, b) => r[a := Get(r, b)]
    case OpLoadNil(a, n) => Niled(r, a, n)
    case OpLoadFalse(a) => r[a := False]
    case OpLFalseSkip(a) => r[a := False]
    case OpLoadTrue(a) => r[a := True]
    case OpLoadI(a, im) => r[a := Int(im)]
    case OpLoadK(a, v) => r[a := v]
    case OpGetUpval(a, b) => r[a := w.up(b)]
    case OpNot(a, b) => r[a := Bool(!Truthy(Get(r, b)))]
    case _ => r
  }

  datatype State = State(pc: int, regs: Regs)

  /** One machine step.  A TESTSET that has no register yet stores nothing; such a one is always
      followed by a pending jump. */
  function Step(w: World, code: Code, s: State): State
    requires 0 <= s.pc < |code|
  {
    var i := code[s.pc];
    if IsTest(i) then
      if Holds(w, i, s.regs) == i.k then
        State(s.pc + 1, if i.OpTestSet? && i.a != NO_REG then s.regs[i.a := Get(s.regs, i.b)] else s.regs)
      else
        State(s.pc + 2, s.regs)
    else if i.OpJmp? then
      State(s.pc + 1 + i.sj, s.regs)
    else
      State(s.pc + (if i.OpLFalseSkip? then 2 else 1), Effect(w, i, s.regs))
  }

  /** Runs until the end of the code or until a position in `stops`. */
  function Run(w: World, code: Code, stops: set<int>, s: State): State
    decreases |code| - s.pc
  {
    if s.pc < 0 || s.pc >= |code| || s.pc in stops then s
    else
      var n := Step(w, code, s);
      if n.pc <= s.pc then s else Run(w, code, stops, n)
  }

  /** Code generation either goes on or stops with a syntax error ("function or expression needs
      too many registers", "control structure too long"). */
  datatype Status = Ok | LimitExceeded {
    predicate IsFailure() {
      LimitExceeded?
    }

    function PropagateFailure(): Status
      requires IsFailure()
    {
      this
    }
  }

  predicate JumpFits(pc: int, dest: int) {
    -OFFSET_sJ <= dest - (pc + 1) <= MAXARG_sJ - OFFSET_sJ
  }

  // ---------------------------------------------------------------- well-formed code

  function Target(code: Code, pc: int): int
    requires 0 <= pc < |code| && code[pc].OpJmp?
  {
    pc + 1 + code[pc].sj
  }

  /** An immediate operand fits its field: 17 bits with an offset of 65535, or 8 bits with an offset of 127. */
  predicate Fits(i: Instr) {
    match i
    case OpLoadI(_, n) => 0 <= n + 0xFFFF < 0x2_0000
    case OpCmpI(_, _, _, n, _) => 0 <= n + 127 < 0x100
    case _ => true
  }

  ghost predicate InstrOk(code: Code, pending: set<int>, last: int, pc: int)
    requires 0 <= pc < |code|
  {
    var i := code[pc];
    && Fits(i)
    && (IsTest(i) ==> pc + 1 < |code| && code[pc + 1].OpJmp?)
    && (i.OpTestSet? && i.a == NO_REG ==> pc + 1 in pending)
    && (i.OpLFalseSkip? ==> pc + 1 < |code| && code[pc + 1].OpLoadTrue?)
    && (i.OpJmp? && pc !in pending ==>
          pc < Target(code, pc) <= last && Target(code, pc) <= |code| && !IsTest(code[Target(code, pc) - 1]))
  }

  /** The invariant of generated code from position `lo` on: tests are followed by jumps, pending
      jumps are exactly conditional ones, and every other jump goes forward to a marked label. */
  ghost predicate Sound(code: Code, pending: set<int>, lo: int, last: int) {
    && 0 <= lo <= |code| && last <= |code|
    && (forall pc | lo <= pc < |code| :: InstrOk(code, pending, last, pc))
    && (forall j | j in pending :: lo < j < |code| && code[j].OpJmp? && IsTest(code[j - 1]) &&
                                   (code[j - 1].OpTestSet? ==> code[j - 1].a == NO_REG))
  }

  lemma {:induction false} RunEnds(w: World, code: Code, pending: set<int>, lo: int, last: int, stops: set<int>,
                                   s: State)
    requires Sound(code, pending, lo, last)
    requires pending <= stops
    requires lo <= s.pc <= |code|
    ensures var e := Run(w, code, stops, s); s.pc <= e.pc <= |code| && (e.pc == |code| || e.pc in stops)
    decreases |code| - s.pc
  {
    if s.pc < |code| && s.pc !in stops {
      assert InstrOk(code, pending, last, s.pc);
      RunEnds(w, code, pending, lo, last, stops, Step(w, code, s));
    }
  }

  /** Stopping early and then going on is the same as not stopping. */
  lemma {:induction false} RunResume(w: World, code: Code, stops: set<int>, fewer: set<int>, s: State)
    requires fewer <= stops
    ensures Run(w, code, fewer, s) == Run(w, code, fewer, Run(w, code, stops, s))
    decreases |code| - s.pc
  {
    if 0 <= s.pc < |code| && s.pc !in stops {
      var n := Step(w, code, s);
      if n.pc > s.pc { RunResume(w, code, stops, fewer, n); }
    }
  }

  // ---------------------------------------------------------------- code that changes

  /** `i'` does to a run what `i` does, up to the store of a patched TESTSET, which happens only
      on the way to the pending jump after it. */
  predicate SameTest(i: Instr, i': Instr) {
    i.OpTestSet? && i.a == NO_REG &&
    ((i'.OpTestSet? && i'.b == i.b && i'.k == i.k) || i' == OpTest(i.b, i.k))
  }

  /** `code'` extends `code`, and where they differ before its end, `code` was stopped or the
      instruction is a test in front of a stop. */
  ghost predicate Morph(code: Code, code': Code, lo: int, stops: set<int>, stops': set<int>) {
    && 0 <= lo && |code| <= |code'|
    && (forall pc | lo <= pc < |code| :: pc in stops <==> pc in stops')
    && (forall pc | lo <= pc < |code| && pc in stops :: code'[pc] == code[pc] || !code'[pc].OpTestSet?)
    && (forall pc | lo <= pc < |code| && pc !in stops ::
          code'[pc] == code[pc] || (SameTest(code[pc], code'[pc]) && pc + 1 in stops))
  }

  /** What a patched TESTSET adds to the registers when its jump is reached. */
  function Adjust(code: Code, code': Code, s: State): State {
    if 0 < s.pc < |code| && s.pc < |code'| && code[s.pc - 1] != code'[s.pc - 1] && code'[s.pc - 1].OpTestSet?
       && code'[s.pc - 1].a != NO_REG
    then s.(regs := s.regs[code'[s.pc - 1].a := Get(s.regs, code'[s.pc - 1].b)])
    else s
  }

  /** A step of the changed code is the step of the old code, adjusted in front of a stop. */
  lemma {:induction false} MorphStep(w: World, code: Code, code': Code, pending: set<int>, lo: int, last: int,
                                     stops: set<int>, stops': set<int>, s: State)
    requires Sound(code, pending, lo, last) && pending <= stops
    requires Morph(code, code', lo, stops, stops')
    requires lo <= s.pc < |code| && s.pc !in stops
    ensures var n := Step(w, code, s);
            && s.pc < n.pc <= |code| && s.pc !in stops' && (n.pc < |code| ==> (n.pc in stops <==> n.pc in stops'))
            && if IsTest(code[s.pc]) && n.pc in stops && n.pc == s.pc + 1
               then n.pc < |code| && Step(w, code', s) == Adjust(code, code', n)
               else Step(w, code', s) == n && (!IsTest(code[n.pc - 1]) || n.pc !in stops)
  {
    assert InstrOk(code, pending, last, s.pc);
    if IsTest(code[s.pc]) { assert code[s.pc + 1].OpJmp?; }
    var n := Step(w, code, s);
    if code[s.pc].OpJmp? { assert n.pc == Target(code, s.pc); }
  }

  /** The one lemma behind emitting, patching, concatenating lists and dropping values: a run of
      the changed code is the run of the old code, adjusted where it stopped, or continued. */
  lemma {:induction false} RunMorph(w: World, code: Code, code': Code, pending: set<int>, lo: int, last: int,
                                    stops: set<int>, stops': set<int>, s: State)
    requires Sound(code, pending, lo, last) && pending <= stops
    requires Morph(code, code', lo, stops, stops')
    requires lo <= s.pc <= |code|
    requires s.pc == lo || !IsTest(code[s.pc - 1]) || s.pc !in stops
    ensures var e := Run(w, code, stops, s);
            Run(w, code', stops', s) ==
            if e.pc == |code| then Run(w, code', stops', e)
            else if e.pc == lo then e
            else Adjust(code, code', e)
    decreases |code| - s.pc
  {
    RunEnds(w, code, pending, lo, last, stops, s);
    if s.pc < |code| && s.pc !in stops {
      MorphStep(w, code, code', pending, lo, last, stops, stops', s);
      var n := Step(w, code, s);
      if IsTest(code[s.pc]) && n.pc in stops && n.pc == s.pc + 1 {
        assert Run(w, code, stops, s) == n;
        assert Run(w, code', stops', s) == Step(w, code', s);
      } else {
        RunMorph(w, code, code', pending, lo, last, stops, stops', n);
      }
    }
  }

  /** Clearing two spans is clearing their union. */
  lemma {:induction false} NiledTwice(r: Regs, wide: Instr, i: Instr, from: int, n: int)
    requires wide.OpLoadNil? && i.OpLoadNil?
    requires forall x :: InSpan(x, wide.a, wide.n) <==> InSpan(x, i.a, i.n) || InSpan(x, from, n)
    ensures Niled(r, wide.a, wide.n) == Niled(Niled(r, i.a, i.n), from, n)
  {
    var once, twice := Niled(r, wide.a, wide.n), Niled(Niled(r, i.a, i.n), from, n);
    forall x
      ensures x in once <==> x in twice
      ensures x in once ==> once[x] == twice[x]
    {
      assert InSpan(x, wide.a, wide.n) <==> InSpan(x, i.a, i.n) || InSpan(x, from, n);
    }
  }

  /** Widening the LOADNIL that ends the code is running it and then clearing the new span, as
      long as no label sits behind it. */
  lemma {:induction false} RunMergeNil(w: World, code: Code, pending: set<int>, lo: int, last: int, stops: set<int>,
                                       s: State, wide: Instr, from: int, n: int)
    requires Sound(code, pending, lo, last) && pending <= stops
    requires lo <= s.pc < |code| && last < |code|
    requires |code| - 1 !in stops && code[|code| - 1].OpLoadNil? && wide.OpLoadNil?
    requires forall x :: InSpan(x, wide.a, wide.n) <==>
             InSpan(x, code[|code| - 1].a, code[|code| - 1].n) || InSpan(x, from, n)
    ensures var e := Run(w, code, stops, s);
            Run(w, code[|code| - 1 := wide], stops, s) ==
            if e.pc == |code| then State(e.pc, Niled(e.regs, from, n)) else e
    decreases |code| - s.pc
  {
    if s.pc !in stops {
      assert InstrOk(code, pending, last, s.pc);
      if s.pc == |code| - 1 {
        NiledTwice(s.regs, wide, code[|code| - 1], from, n);
      } else {
        RunMergeNil(w, code, pending, lo, last, stops, Step(w, code, s), wide, from, n);
      }
    }
  }

  // ---------------------------------------------------------------- the operations of the generator, on runs

  predicate IsStraight(i: Instr) {
    !IsTest(i) && !i.OpJmp? && !i.OpLFalseSkip?
  }

  /** Emitting an instruction that falls through. */
  lemma {:induction false} RunEmit(w: World, code: Code, pending: set<int>, lo: int, last: int, i: Instr, s: State)
    requires Sound(code, pending, lo, last) && IsStraight(i) && s.pc == lo
    ensures var e := Run(w, code, pending, s);
            Run(w, code + [i], pending, s) == if e.pc == |code| then State(|code| + 1, Effect(w, i, e.regs)) else e
  {
    var e := Run(w, code, pending, s);
    RunEnds(w, code, pending, lo, last, pending, s);
    RunMorph(w, code, code + [i], pending, lo, last, pending, pending, s);
    if e.pc == |code| {
      assert |code| !in pending;
      assert Step(w, code + [i], e) == State(|code| + 1, Effect(w, i, e.regs));
    }
  }

  /** Emitting an instruction and halting in front of it. */
  lemma {:induction false} RunEmitPaused(w: World, code: Code, pending: set<int>, lo: int, last: int, i: Instr,
                                         s: State)
    requires Sound(code, pending, lo, last) && s.pc == lo
    ensures Run(w, code + [i], pending + {|code|}, s) == Run(w, code, pending, s)
  {
    RunEnds(w, code, pending, lo, last, pending, s);
    RunMorph(w, code, code + [i], pending, lo, last, pending, pending + {|code|}, s);
  }

  /** Changing the instruction a run halts in front of, and letting it go on. */
  lemma {:induction false} RunUnpause(w: World, code: Code, pending: set<int>, lo: int, last: int, pc: int, i: Instr,
                                      s: State)
    requires Sound(code, pending, lo, last) && lo <= pc == |code| - 1 && s.pc == lo
    requires IsStraight(code[pc]) && IsStraight(i) && pc !in pending
    ensures var e := Run(w, code, pending + {pc}, s);
            Run(w, code[pc := i], pending, s) == if e.pc == pc then State(|code|, Effect(w, i, e.regs)) else e
  {
    var stops, code' := pending + {pc}, code[pc := i];
    var e := Run(w, code, stops, s);
    RunEnds(w, code, pending, lo, last, stops, s);
    RunMorph(w, code, code', pending, lo, last, stops, stops, s);
    RunResume(w, code', stops, pending, s);
    if e.pc == pc {
      assert Step(w, code', e) == State(|code|, Effect(w, i, e.regs));
    }
  }

  /** Emitting a test and its jump, which stays pending. */
  lemma {:induction false} RunEmitTest(w: World, code: Code, pending: set<int>, lo: int, last: int, i: Instr, s: State)
    requires Sound(code, pending, lo, last) && IsTest(i) && s.pc == lo
    requires i.OpTestSet? ==> i.a == NO_REG
    ensures var e := Run(w, code, pending, s);
            Run(w, code + [i, OpJmp(NO_JUMP)], pending + {|code| + 1}, s) ==
            if e.pc == |code| then State(|code| + (if Holds(w, i, e.regs) == i.k then 1 else 2), e.regs) else e
  {
    var e, code' := Run(w, code, pending, s), code + [i, OpJmp(NO_JUMP)];
    RunEnds(w, code, pending, lo, last, pending, s);
    RunMorph(w, code, code', pending, lo, last, pending, pending + {|code| + 1}, s);
    if e.pc == |code| {
      assert Step(w, code', e).pc == |code| + (if Holds(w, i, e.regs) == i.k then 1 else 2);
    }
  }

  /** Going on from a halt in front of a test whose jump is pending. */
  lemma {:induction false} RunUnpauseTest(w: World, code: Code, pending: set<int>, lo: int, last: int, pc: int,
                                          s: State)
    requires Sound(code, pending, lo, last) && lo <= pc == |code| - 2 && s.pc == lo
    requires IsTest(code[pc]) && pc + 1 in pending && pc !in pending
    ensures var e := Run(w, code, pending + {pc}, s);
            Run(w, code, pending, s) ==
            if e.pc == pc then State(pc + (if Holds(w, code[pc], e.regs) == code[pc].k then 1 else 2), e.regs) else e
  {
    var e := Run(w, code, pending + {pc}, s);
    RunEnds(w, code, pending, lo, last, pending + {pc}, s);
    RunResume(w, code, pending + {pc}, pending, s);
    if e.pc == pc {
      assert Step(w, code, e).pc == pc + (if Holds(w, code[pc], e.regs) == code[pc].k then 1 else 2);
    }
  }

  /** Instructions a run halts in front of may change freely: links of a jump list, or a
      comparison that is being negated. */
  lemma {:induction false} RunAtStops(w: World, code: Code, code': Code, pending: set<int>, lo: int, last: int,
                                      stops: set<int>, s: State)
    requires Sound(code, pending, lo, last) && pending <= stops && s.pc == lo
    requires |code'| == |code|
    requires forall pc | 0 <= pc < |code| :: code'[pc] == code[pc] || (pc in stops && !code'[pc].OpTestSet?)
    ensures Run(w, code', stops, s) == Run(w, code, stops, s)
  {
    RunEnds(w, code, pending, lo, last, stops, s);
    RunMorph(w, code, code', pending, lo, last, stops, stops, s);
  }

  /** patchtestreg on a TESTSET. */
  function PatchTest(i: Instr, reg: int): Instr
    requires i.OpTestSet?
  {
    if reg != NO_REG && reg != i.b then OpTestSet(reg, i.b, i.k) else OpTest(i.b, i.k)
  }

  /** The instruction at pc once the jumps `l` are patched: those after a TESTSET go to vtarget
      and give the value to reg, the others go to dtarget. */
  ghost function PatchedAt(code: Code, l: set<int>, vtarget: int, reg: int, dtarget: int, pc: int): Instr
    requires 0 <= pc < |code|
  {
    if pc in l then OpJmp((if pc > 0 && code[pc - 1].OpTestSet? then vtarget else dtarget) - (pc + 1))
    else if pc + 1 in l && code[pc].OpTestSet? then PatchTest(code[pc], reg)
    else code[pc]
  }

  ghost predicate Patched(code: Code, l: set<int>, vtarget: int, reg: int, dtarget: int, code': Code) {
    |code'| == |code| && forall pc | 0 <= pc < |code| :: code'[pc] == PatchedAt(code, l, vtarget, reg, dtarget, pc)
  }

  ghost function PatchRegs(i: Instr, reg: int, r: Regs): Regs {
    if i.OpTestSet? && reg != NO_REG && reg != i.b then r[reg := Get(r, i.b)] else r
  }

  lemma {:induction false} PatchMorph(code: Code, pending: set<int>, lo: int, last: int, l: set<int>,
                                      vtarget: int, reg: int, dtarget: int, code': Code)
    requires Sound(code, pending, lo, last) && l <= pending && Patched(code, l, vtarget, reg, dtarget, code')
    ensures Morph(code, code', lo, pending, pending)
  {
  }

  lemma {:induction false} PatchedStep(w: World, code: Code, pending: set<int>, lo: int, last: int, l: set<int>,
                                       vtarget: int, reg: int, dtarget: int, code': Code, e: State)
    requires Sound(code, pending, lo, last) && l <= pending && Patched(code, l, vtarget, reg, dtarget, code')
    requires lo < e.pc < |code| && e.pc in l
    ensures var s := Adjust(code, code', e);
            s.pc == e.pc && Step(w, code', s) == State(if code[e.pc - 1].OpTestSet? then vtarget else dtarget,
                                                       PatchRegs(code[e.pc - 1], reg, e.regs))
  {
    assert code'[e.pc - 1] == PatchedAt(code, l, vtarget, reg, dtarget, e.pc - 1);
    assert code'[e.pc] == PatchedAt(code, l, vtarget, reg, dtarget, e.pc);
  }

  /** The patched code gets to the same stops. */
  lemma {:induction false} PatchedStop(w: World, code: Code, pending: set<int>, lo: int, last: int, l: set<int>,
                                       vtarget: int, reg: int, dtarget: int, code': Code, s: State)
    requires Sound(code, pending, lo, last) && l <= pending && s.pc == lo
    requires Patched(code, l, vtarget, reg, dtarget, code')
    ensures var e := Run(w, code, pending, s);
            if e.pc in l then lo < e.pc < |code| && Run(w, code', pending, s) == Adjust(code, code', e)
            else Run(w, code', pending, s) == e && (e.pc == |code'| || e.pc in pending)
  {
    var e := Run(w, code, pending, s);
    RunEnds(w, code, pending, lo, last, pending, s);
    PatchMorph(code, pending, lo, last, l, vtarget, reg, dtarget, code');
    RunMorph(w, code, code', pending, lo, last, pending, pending, s);
    if e.pc !in l && e.pc != |code| {
      assert code'[e.pc - 1] == PatchedAt(code, l, vtarget, reg, dtarget, e.pc - 1);
    }
  }

  lemma {:induction false} RunStep(w: World, code: Code, stops: set<int>, s: State)
    requires 0 <= s.pc < |code| && s.pc !in stops && Step(w, code, s).pc > s.pc
    ensures Run(w, code, stops, s) == Run(w, code, stops, Step(w, code, s))
  {
  }

  /** A run that left through a patched jump now goes on at its target, with the tested value in
      the register; every other run is unchanged. */
  lemma {:induction false} RunPatch(w: World, code: Code, pending: set<int>, lo: int, last: int, l: set<int>,
                 vtarget: int, reg: int, dtarget: int, code': Code, s: State)
    requires Sound(code, pending, lo, last) && l <= pending && s.pc == lo
    requires Patched(code, l, vtarget, reg, dtarget, code')
    requires forall j | j in l :: j < if code[j - 1].OpTestSet? then vtarget else dtarget
    ensures var e := Run(w, code, pending, s);
            Run(w, code', pending - l, s) ==
            if e.pc in l then
              Run(w, code', pending - l, State(if code[e.pc - 1].OpTestSet? then vtarget else dtarget,
                                               PatchRegs(code[e.pc - 1], reg, e.regs)))
            else e
  {
    var e := Run(w, code, pending, s);
    PatchedStop(w, code, pending, lo, last, l, vtarget, reg, dtarget, code', s);
    RunResume(w, code', pending, pending - l, s);
    if e.pc in l {
      PatchedStep(w, code, pending, lo, last, l, vtarget, reg, dtarget, code', e);
      RunStep(w, code', pending - l, Adjust(code, code', e));
    }
  }

  lemma {:induction false} SoundPatch(code: Code, pending: set<int>, lo: int, last: int, l: set<int>,
                   vtarget: int, reg: int, dtarget: int, code': Code, last': int)
    requires Sound(code, pending, lo, last) && l <= pending && last <= last' <= |code|
    requires Patched(code, l, vtarget, reg, dtarget, code')
    requires forall j | j in l :: var t := if code[j - 1].OpTestSet? then vtarget else dtarget;
                                  j < t <= last' && !IsTest(code[t - 1])
    ensures Sound(code', pending - l, lo, last')
  {
    forall pc {:trigger code'[pc]} | 0 <= pc < |code|
      ensures IsTest(code'[pc]) == IsTest(code[pc]) && code'[pc].OpJmp? == code[pc].OpJmp?
      ensures code'[pc].OpLoadTrue? == code[pc].OpLoadTrue? && code'[pc].OpLFalseSkip? == code[pc].OpLFalseSkip?
    {}
    forall pc | lo <= pc < |code'| ensures InstrOk(code', pending - l, last', pc) {
      assert InstrOk(code, pending, last, pc);
      assert code'[pc] == PatchedAt(code, l, vtarget, reg, dtarget, pc);
    }
  }

  /** removevalues: the tests in front of `l` keep no value. */
  ghost predicate Dropped(code: Code, l: set<int>, code': Code) {
    |code'| == |code| &&
    forall pc | 0 <= pc < |code| ::
      code'[pc] == if pc + 1 in l && code[pc].OpTestSet? then OpTest(code[pc].b, code[pc].k) else code[pc]
  }

  lemma {:induction false} RunDrop(w: World, code: Code, pending: set<int>, lo: int, last: int, l: set<int>,
                                   stops: set<int>, code': Code, s: State)
    requires Sound(code, pending, lo, last) && l <= pending <= stops && s.pc == lo
    requires Dropped(code, l, code')
    requires forall pc | pc in stops && 0 <= pc < |code| :: !code[pc].OpTestSet?
    ensures Run(w, code', stops, s) == Run(w, code, stops, s)
  {
    RunEnds(w, code, pending, lo, last, stops, s);
    forall pc | lo <= pc < |code| && pc !in stops
      ensures code'[pc] == code[pc] || (SameTest(code[pc], code'[pc]) && pc + 1 in stops)
    {
      if pc + 1 in l && code[pc].OpTestSet? { assert code[pc + 1 - 1].a == NO_REG; }
    }
    RunMorph(w, code, code', pending, lo, last, stops, stops, s);
  }

  lemma {:induction false} SoundDrop(code: Code, pending: set<int>, lo: int, last: int, l: set<int>, code': Code)
    requires Sound(code, pending, lo, last) && l <= pending && Dropped(code, l, code')
    ensures Sound(code', pending, lo, last)
  {
    forall pc | lo <= pc < |code'| ensures InstrOk(code', pending, last, pc) {
      assert InstrOk(code, pending, last, pc);
    }
  }

  // ---------------------------------------------------------------- and on well-formedness

  lemma {:induction false} SoundEmit(code: Code, pending: set<int>, lo: int, last: int, i: Instr)
    requires Sound(code, pending, lo, last) && IsStraight(i) && Fits(i)
    ensures Sound(code + [i], pending, lo, last)
  {
    forall pc | lo <= pc < |code + [i]| ensures InstrOk(code + [i], pending, last, pc) {
      if pc < |code| { assert InstrOk(code, pending, last, pc); }
    }
  }

  lemma {:induction false} SoundEmitTest(code: Code, pending: set<int>, lo: int, last: int, i: Instr)
    requires Sound(code, pending, lo, last) && IsTest(i) && Fits(i) && (i.OpTestSet? ==> i.a == NO_REG)
    ensures Sound(code + [i, OpJmp(NO_JUMP)], pending + {|code| + 1}, lo, last)
  {
    var code', pending' := code + [i, OpJmp(NO_JUMP)], pending + {|code| + 1};
    forall pc | lo <= pc < |code'| ensures InstrOk(code', pending', last, pc) {
      if pc < |code| { assert InstrOk(code, pending, last, pc); }
    }
  }

  lemma {:induction false} SoundRemoveLast(code: Code, pending: set<int>, lo: int, last: int)
    requires Sound(code, pending, lo, last) && lo < |code| && last < |code|
    requires IsStraight(code[|code| - 1]) && !code[|code| - 1].OpLoadTrue?
    ensures Sound(code[..|code| - 1], pending, lo, last)
  {
    var code' := code[..|code| - 1];
    forall pc | lo <= pc < |code'| ensures InstrOk(code', pending, last, pc) {
      assert InstrOk(code, pending, last, pc);
    }
  }

  lemma {:induction false} SoundReplace(code: Code, pending: set<int>, lo: int, last: int, at: int, i: Instr)
    requires Sound(code, pending, lo, last) && lo <= at < |code| && Fits(i)
    requires (IsStraight(code[at]) && IsStraight(i) && !code[at].OpLoadTrue?)
          || (at in pending && i.OpJmp?)
          || (IsTest(code[at]) && IsTest(i) && !i.OpTestSet?)
    ensures Sound(code[at := i], pending, lo, last)
  {
    var code' := code[at := i];
    forall pc | lo <= pc < |code'| ensures InstrOk(code', pending, last, pc) {
      assert InstrOk(code, pending, last, pc);
    }
  }

  // ---------------------------------------------------------------- giving exits their final value

  /** An unconditional jump around the two boolean loads. */
  lemma {:induction false} RunAround(w: World, code: Code, pending: set<int>, lo: int, last: int, reg: int, s: State)
    requires Sound(code, pending, lo, last) && s.pc == lo
    ensures var code', e := code + [OpJmp(2), OpLFalseSkip(reg), OpLoadTrue(reg)], Run(w, code, pending, s);
            Run(w, code', pending, s) == if e.pc == |code| then State(|code'|, e.regs) else e
  {
    var code', e := code + [OpJmp(2), OpLFalseSkip(reg), OpLoadTrue(reg)], Run(w, code, pending, s);
    RunEnds(w, code, pending, lo, last, pending, s);
    RunMorph(w, code, code', pending, lo, last, pending, pending, s);
    if e.pc == |code| { assert Step(w, code', e) == State(|code'|, e.regs); }
  }

  lemma {:induction false} SoundAround(code: Code, pending: set<int>, lo: int, last: int, reg: int)
    requires Sound(code, pending, lo, last)
    ensures var code' := code + [OpJmp(2), OpLFalseSkip(reg), OpLoadTrue(reg)]; Sound(code', pending, lo, |code'|)
  {
    var code' := code + [OpJmp(2), OpLFalseSkip(reg), OpLoadTrue(reg)];
    forall pc | lo <= pc < |code'| ensures InstrOk(code', pending, |code'|, pc) {
      if pc < |code| { assert InstrOk(code, pending, last, pc); }
    }
  }

  /** The two boolean loads, entered by falling through. */
  lemma {:induction false} RunBools(w: World, code: Code, pending: set<int>, lo: int, last: int, reg: int, s: State)
    requires Sound(code, pending, lo, last) && s.pc == lo
    ensures var code', e := code + [OpLFalseSkip(reg), OpLoadTrue(reg)], Run(w, code, pending, s);
            Run(w, code', pending, s) == if e.pc == |code| then State(|code'|, e.regs[reg := False]) else e
  {
    var code', e := code + [OpLFalseSkip(reg), OpLoadTrue(reg)], Run(w, code, pending, s);
    RunEnds(w, code, pending, lo, last, pending, s);
    RunMorph(w, code, code', pending, lo, last, pending, pending, s);
    if e.pc == |code| { assert Step(w, code', e) == State(|code'|, e.regs[reg := False]); }
  }

  lemma {:induction false} SoundBools(code: Code, pending: set<int>, lo: int, last: int, reg: int)
    requires Sound(code, pending, lo, last)
    ensures var code' := code + [OpLFalseSkip(reg), OpLoadTrue(reg)]; Sound(code', pending, lo, |code'|)
  {
    var code' := code + [OpLFalseSkip(reg), OpLoadTrue(reg)];
    forall pc | lo <= pc < |code'| ensures InstrOk(code', pending, |code'|, pc) {
      if pc < |code| { assert InstrOk(code, pending, last, pc); }
    }
  }

  /** Every jump in `l` follows a TESTSET. */
  ghost predicate AllSet(code: Code, l: set<int>) {
    forall j | j in l :: 0 < j <= |code| && code[j - 1].OpTestSet?
  }

  /** The load that gives a jump without a value the boolean b. */
  ghost predicate LoadsBoolAt(code: Code, reg: int, b: bool, pc: int) {
    if b then pc == |code| - 1 >= 0 && code[pc] == OpLoadTrue(reg)
    else pc == |code| - 2 >= 0 && code[pc] == OpLFalseSkip(reg)
  }

  /** Registers at the end of the code for a run that left through a jump after test `i`. */
  ghost function ExitRegs(i: Instr, reg: int, b: bool, r: Regs): Regs {
    if i.OpTestSet? then PatchRegs(i, reg, r) else r[reg := Bool(b)]
  }

  /** Patching a whole list: value-producing tests go to the end, the others to their load. */
  lemma {:induction false} RunPatchList(w: World, code: Code, pending: set<int>, lo: int, last: int, l: set<int>,
                     reg: int, b: bool, dtarget: int, code': Code, s: State)
    requires Sound(code, pending, lo, last) && l <= pending && s.pc == lo
    requires Patched(code, l, |code|, reg, dtarget, code')
    requires AllSet(code, l) || (LoadsBoolAt(code, reg, b, dtarget) && forall j | j in l :: j < dtarget)
    ensures var e := Run(w, code, pending, s);
            Run(w, code', pending - l, s) ==
            if e.pc in l then State(|code|, ExitRegs(code[e.pc - 1], reg, b, e.regs)) else e
  {
    var e := Run(w, code, pending, s);
    RunPatch(w, code, pending, lo, last, l, |code|, reg, dtarget, code', s);
    if e.pc in l && !code[e.pc - 1].OpTestSet? {
      assert dtarget !in pending;
      assert code'[dtarget] == PatchedAt(code, l, |code|, reg, dtarget, dtarget) == code[dtarget];
      assert Step(w, code', State(dtarget, e.regs)) == State(|code|, e.regs[reg := Bool(b)]);
    }
  }
}
