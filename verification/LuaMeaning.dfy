/** What partially generated expression code means.

    An expression descriptor stands for code that may still leave through two lists of pending
    jumps, `t` (the value is true) and `f` (the value is false).  `DenotesAt` says that running
    such code from where the expression started computes the expression's value, wherever the
    run leaves.  The lemmas follow the generator's operations one by one.
 */
module LuaMeaning {
  import opened LuaVm

  // ---------------------------------------------------------------- source expressions

  datatype Expr =
    | ENil | ETrue | EFalse
    | EInt(i: int)
    | EStr(s: string)
    | ELocal(r: int)
    | EUpval(u: int)
    | EParen(e: Expr)
    | ENot(e: Expr)
    | EAnd(a: Expr, b: Expr)
    | EOr(a: Expr, b: Expr)
    | ELess(op: CmpOp, a: Expr, b: Expr)     // a < b, a <= b
    | EGreater(op: CmpOp, a: Expr, b: Expr)  // a > b, a >= b

  function Eval(w: World, e: Expr, r: Regs): Value {
    match e
    case ENil => Nil
    case ETrue => True
    case EFalse => False
    case EInt(i) => Int(i)
    case EStr(s) => Str(s)
    case ELocal(x) => Get(r, x)
    case EUpval(u) => w.up(u)
    case EParen(e) => Eval(w, e, r)
    case ENot(e) => Bool(!Truthy(Eval(w, e, r)))
    case EAnd(a, b) => if Truthy(Eval(w, a, r)) then Eval(w, b, r) else Eval(w, a, r)
    case EOr(a, b) => if Truthy(Eval(w, a, r)) then Eval(w, a, r) else Eval(w, b, r)
    case ELess(op, a, b) => Bool(w.rel(op, Eval(w, a, r), Eval(w, b, r)))
    case EGreater(op, a, b) => Bool(w.rel(op, Eval(w, b, r), Eval(w, a, r)))
  }

  /** The expression names only active local variables. */
  predicate Scoped(e: Expr, nvar: int) {
    match e
    case ELocal(x) => 0 <= x < nvar
    case EParen(e) => Scoped(e, nvar)
    case ENot(e) => Scoped(e, nvar)
    case EAnd(a, b) => Scoped(a, nvar) && Scoped(b, nvar)
    case EOr(a, b) => Scoped(a, nvar) && Scoped(b, nvar)
    case ELess(_, a, b) => Scoped(a, nvar) && Scoped(b, nvar)
    case EGreater(_, a, b) => Scoped(a, nvar) && Scoped(b, nvar)
    case _ => true
  }

  lemma {:induction false} EvalLocal(w: World, e: Expr, nvar: int, r: Regs, r': Regs)
    requires Scoped(e, nvar) && Agree(r, r', nvar)
    ensures Eval(w, e, r) == Eval(w, e, r')
  {
    match e
    case EParen(a) => EvalLocal(w, a, nvar, r, r');
    case ENot(a) => EvalLocal(w, a, nvar, r, r');
    case EAnd(a, b) => EvalLocal(w, a, nvar, r, r'); EvalLocal(w, b, nvar, r, r');
    case EOr(a, b) => EvalLocal(w, a, nvar, r, r'); EvalLocal(w, b, nvar, r, r');
    case ELess(_, a, b) => EvalLocal(w, a, nvar, r, r'); EvalLocal(w, b, nvar, r, r');
    case EGreater(_, a, b) => EvalLocal(w, a, nvar, r, r'); EvalLocal(w, b, nvar, r, r');
    case _ =>
  }

  // ---------------------------------------------------------------- descriptors and lists

  /** Where an expression's value is, apart from its jump lists (expkind). */
  datatype Kind =
    | VNil | VTrue | VFalse
    | VKInt(i: int)
    | VKStr(s: string)
    | VLocal(r: int)
    | VUpval(u: int)
    | VNonReloc(r: int)
    | VReloc(pc: int)   // the instruction at pc still needs a target register
    | VJmp(pc: int)     // the comparison before the jump at pc

  datatype ExpDesc = ExpDesc(k: Kind, t: int, f: int)

  /** The offset that links element i of a jump list to the next one. */
  function Link(l: seq<int>, i: int): int
    requires 0 <= i < |l|
  {
    if i + 1 < |l| then l[i + 1] - (l[i] + 1) else NO_JUMP
  }

  ghost predicate Distinct(l: seq<int>) {
    forall i, j | 0 <= i < j < |l| :: l[i] != l[j]
  }

  /** The jumps at the positions `l` are threaded through the code into a list with this head. */
  ghost predicate IsList(code: Code, head: int, l: seq<int>) {
    && head == (if l == [] then NO_JUMP else l[0])
    && (forall i | 0 <= i < |l| :: 0 <= l[i] < |code|)
    && (forall i {:trigger code[l[i]]} | 0 <= i < |l| :: code[l[i]] == OpJmp(Link(l, i)))
    && Distinct(l)
  }

  ghost function JumpSet(l: seq<int>): set<int> {
    set j | j in l
  }

  /** An expression starts where `code` ends; `out` are jumps pending outside it, registers below
      `base` are in use, and runs are observed from position `lo`. */
  datatype Site = Site(lo: int, out: set<int>, code: Code, base: int)

  ghost function Pending(out: set<int>, k: Kind, ts: set<int>, fs: set<int>): set<int> {
    out + ts + fs + (if k.VJmp? then {k.pc} else {})
  }

  /** Where a run halts because the descriptor leaves an instruction unfinished. */
  ghost function Pause(k: Kind): set<int> {
    match k
    case VReloc(pc) => {pc}
    case VJmp(pc) => {pc - 1}
    case _ => {}
  }

  predicate IsReloc(i: Instr) {
    i.OpNot? || i.OpGetUpval?
  }

  function RelocValue(w: World, i: Instr, r: Regs): Value
    requires IsReloc(i)
  {
    match i
    case OpNot(_, b) => Bool(!Truthy(Get(r, b)))
    case OpGetUpval(_, b) => w.up(b)
  }

  predicate IsCmp(i: Instr) {
    i.OpCmp? || i.OpCmpI?
  }

  /** Earlier code is untouched, except that its final LOADNIL may have been widened. */
  ghost predicate Keeps(old_: Code, code: Code) {
    && |old_| <= |code|
    && forall pc | 0 <= pc < |old_| ::
         code[pc] == old_[pc] || (pc == |old_| - 1 && old_[pc].OpLoadNil? && code[pc].OpLoadNil?)
  }

  /** luaK_nil can never reach in front of `lo`. */
  ghost predicate Anchored(code: Code, lo: int, last: int)
    requires 0 <= lo <= |code|
  {
    (lo < |code| && code[lo].OpLoadNil?) || lo == 0 || !code[lo - 1].OpLoadNil? || last >= lo
  }

  ghost predicate KindOk(site: Site, nvar: int, code: Code, last: int, k: Kind, ts: set<int>, fs: set<int>) {
    match k
    case VLocal(r) => 0 <= r < nvar
    case VNonReloc(r) => 0 <= r < NO_REG
    case VReloc(pc) => |site.code| <= pc == |code| - 1 && last <= pc && IsReloc(code[pc])
    case VJmp(pc) => |site.code| < pc == |code| - 1 && last < pc && code[pc] == OpJmp(NO_JUMP) && IsCmp(code[pc - 1])
        && pc !in ts && pc !in fs && pc !in site.out
    case _ => true
  }

  /** Where a run of the descriptor's code gets to when it leaves through neither list. */
  function EndOf(code: Code, k: Kind): int {
    match k
    case VReloc(pc) => pc
    case VJmp(pc) => pc - 1
    case _ => |code|
  }

  ghost predicate Apart(site: Site, ts: set<int>, fs: set<int>) {
    ts !! fs && ts !! site.out && fs !! site.out
  }

  /** The expression's jumps and its end lie behind its site, outer jumps in front of it. */
  ghost predicate Placed(site: Site, code: Code, k: Kind, ts: set<int>, fs: set<int>) {
    && (forall j | j in site.out :: j < |site.code|)
    && Apart(site, ts, fs)
    && (forall j | j in ts :: |site.code| < j < |code|)
    && (forall j | j in fs :: |site.code| < j < |code|)
    && |site.code| <= EndOf(code, k) <= |code|
    && EndOf(code, k) !in ts && EndOf(code, k) !in fs
  }

  /** The invariant of a descriptor and its code; `ts` and `fs` are its two sets of jumps. */
  ghost predicate Wf(site: Site, nvar: int, code: Code, last: int, k: Kind, ts: set<int>, fs: set<int>) {
    && 0 <= last && Sound(code, Pending(site.out, k, ts, fs), site.lo, last) && Anchored(code, site.lo, last)
    && site.lo <= |site.code| && Keeps(site.code, code)
    && Placed(site, code, k, ts, fs)
    && KindOk(site, nvar, code, last, k, ts, fs)
  }

  // ---------------------------------------------------------------- meaning

  ghost predicate AgreeBut(r: Regs, r': Regs, n: int, dst: int) {
    forall x | 0 <= x < n && x != dst :: Get(r, x) == Get(r', x)
  }

  /** A run that leaves through the pending jump at s.pc knows the value: it is in the tested
      register of a TESTSET, and a plain boolean otherwise. */
  ghost predicate ExitOk(code: Code, s: State, val: Value, b: bool) {
    && 0 < s.pc <= |code| && Truthy(val) == b
    && if code[s.pc - 1].OpTestSet? then Get(s.regs, code[s.pc - 1].b) == val else val == Bool(b)
  }

  /** The value of a descriptor whose code is complete. */
  function KindValue(w: World, k: Kind, r: Regs): Value
    requires !k.VReloc? && !k.VJmp?
  {
    match k
    case VNil => Nil
    case VTrue => True
    case VFalse => False
    case VKInt(i) => Int(i)
    case VKStr(x) => Str(x)
    case VLocal(x) => Get(r, x)
    case VUpval(u) => w.up(u)
    case VNonReloc(x) => Get(r, x)
  }

  /** The value a run has when it leaves through neither list. */
  function EndValue(w: World, code: Code, k: Kind, r: Regs): Value {
    match k
    case VReloc(pc) => if 0 <= pc < |code| && IsReloc(code[pc]) then RelocValue(w, code[pc], r) else Nil
    case VJmp(pc) =>
      if 0 < pc < |code| && IsTest(code[pc - 1]) then Bool(Holds(w, code[pc - 1], r) == code[pc - 1].k) else Nil
    case _ => KindValue(w, k, r)
  }

  ghost predicate Lands(w: World, code: Code, k: Kind, ts: set<int>, fs: set<int>, val: Value, s: State) {
    if s.pc in ts then ExitOk(code, s, val, true)
    else if s.pc in fs then ExitOk(code, s, val, false)
    else s.pc == EndOf(code, k) && val == EndValue(w, code, k, s.regs)
  }

  ghost function Before(w: World, site: Site, r0: Regs): State {
    Run(w, site.code, site.out, State(site.lo, r0))
  }

  ghost function After(w: World, site: Site, code: Code, k: Kind, ts: set<int>, fs: set<int>, r0: Regs): State {
    Run(w, code, Pending(site.out, k, ts, fs) + Pause(k), State(site.lo, r0))
  }

  /** For one world and one initial register file: a run that used to leave through an outer jump
      still does; any other run computes `e`, leaving registers below the base other than `dst`
      alone. */
  ghost predicate DenotesAt(w: World, site: Site, e: Expr, code: Code, k: Kind, ts: set<int>, fs: set<int>, dst: int,
                            r0: Regs) {
    Computes(w, site, e, code, k, ts, fs, dst, Before(w, site, r0), After(w, site, code, k, ts, fs, r0))
  }

  ghost predicate Computes(w: World, site: Site, e: Expr, code: Code, k: Kind, ts: set<int>, fs: set<int>, dst: int,
                           s0: State, s: State) {
    if s0.pc in site.out then s == s0
    else AgreeBut(s0.regs, s.regs, site.base, dst) && Lands(w, code, k, ts, fs, Eval(w, e, s0.regs), s)
  }

  ghost predicate Denotes(site: Site, e: Expr, code: Code, k: Kind, ts: set<int>, fs: set<int>, dst: int) {
    forall w, r0 :: DenotesAt(w, site, e, code, k, ts, fs, dst, r0)
  }

  /** After a test on `e`: a run goes through to the end when the truth of `e` is not `cond`; it
      leaves through `ks` when it is, and may leave through `ds` when it is not. */
  ghost predicate BranchAt(w: World, site: Site, e: Expr, code: Code, ks: set<int>, ds: set<int>, cond: bool,
                           r0: Regs) {
    Forks(w, site, e, code, ks, ds, cond, Before(w, site, r0), Run(w, code, site.out + ks + ds, State(site.lo, r0)))
  }

  ghost predicate Forks(w: World, site: Site, e: Expr, code: Code, ks: set<int>, ds: set<int>, cond: bool, s0: State,
                        s: State) {
    if s0.pc in site.out then s == s0
    else
      var val := Eval(w, e, s0.regs);
      && AgreeBut(s0.regs, s.regs, site.base, NO_JUMP)
      && if s.pc in ks then ExitOk(code, s, val, cond)
         else if s.pc in ds then ExitOk(code, s, val, !cond)
         else s.pc == |code| && Truthy(val) != cond
  }

  ghost predicate Branches(site: Site, e: Expr, code: Code, ks: set<int>, ds: set<int>, cond: bool) {
    forall w, r0 :: BranchAt(w, site, e, code, ks, ds, cond, r0)
  }

  // ---------------------------------------------------------------- putting a value in a register

  /** previousinstruction is a LOADNIL that may be changed. */
  ghost predicate NilAtEnd(code: Code, last: int) {
    |code| > last >= 0 && code[|code| - 1].OpLoadNil?
  }

  ghost predicate NilInto(code: Code, last: int, from: int, n: nat, code': Code) {
    || code' == code + [OpLoadNil(from, n)]
    || (NilAtEnd(code, last) && |code'| == |code| && code'[|code| - 1].OpLoadNil?
        && code' == code[|code| - 1 := code'[|code| - 1]]
        && forall x :: InSpan(x, code'[|code| - 1].a, code'[|code| - 1].n) <==>
                       InSpan(x, code[|code| - 1].a, code[|code| - 1].n) || InSpan(x, from, n))
  }

  function SetA(i: Instr, reg: int): Instr
    requires IsReloc(i)
  {
    match i
    case OpNot(_, b) => OpNot(reg, b)
    case OpGetUpval(_, b) => OpGetUpval(reg, b)
  }

  /** An instruction discharge2reg may emit for a descriptor of kind `k`. */
  predicate Loads(k: Kind, reg: int, i: Instr) {
    match k
    case VNil => i == OpLoadNil(reg, 0)
    case VTrue => i == OpLoadTrue(reg)
    case VFalse => i == OpLoadFalse(reg)
    case VKInt(n) => i == if Fits(OpLoadI(reg, n)) then OpLoadI(reg, n) else OpLoadK(reg, Int(n))
    case VKStr(s) => i == OpLoadK(reg, Str(s))
    case VNonReloc(r) => i == OpMove(reg, r)
    case _ => false
  }

  /** `code'` is `code` after discharge2reg has put a descriptor of kind `k` into `reg`. */
  ghost predicate InReg(code: Code, last: int, k: Kind, reg: int, code': Code) {
    || (code' == code && k == VNonReloc(reg))
    || (|code'| == |code| + 1 && Loads(k, reg, code'[|code|]) && code' == code + [code'[|code|]])
    || (k == VNil && |code'| == |code| && NilInto(code, last, reg, 0, code'))
    || (k.VReloc? && 0 <= k.pc < |code| && IsReloc(code[k.pc]) && code' == code[k.pc := SetA(code[k.pc], reg)])
  }

  lemma {:induction false} LoadsValue(w: World, k: Kind, reg: int, i: Instr, r: Regs, x: int)
    requires Loads(k, reg, i)
    ensures Get(Effect(w, i, r), x) == if x == reg then KindValue(w, k, r) else Get(r, x)
  {
    assert InSpan(x, reg, 0) <==> x == reg;
  }

  /** Changing at most the straight instruction at the end keeps jump lists and earlier code. */
  ghost predicate OnlyEnd(site: Site, code: Code, code': Code) {
    && |code| <= |code'|
    && forall pc | 0 <= pc < |code| ::
         code'[pc] == code[pc] ||
         (pc == |code| - 1 && !code[pc].OpJmp? && (|site.code| <= pc || (code[pc].OpLoadNil? && code'[pc].OpLoadNil?)))
  }

  /** Redirecting the last link of one list to the head of another appends the lists. */
  lemma {:induction false} LinkLists(code: Code, h1: int, s1: seq<int>, h2: int, s2: seq<int>, code': Code)
    requires IsList(code, h1, s1) && IsList(code, h2, s2) && s1 != [] && s2 != []
    requires forall i, j | 0 <= i < |s1| && 0 <= j < |s2| :: s1[i] != s2[j]
    requires var at := s1[|s1| - 1]; code' == code[at := OpJmp(h2 - (at + 1))]
    ensures IsList(code', h1, s1 + s2)
  {
    var s := s1 + s2;
    forall i | 0 <= i < |s| ensures 0 <= s[i] < |code'| && code'[s[i]] == OpJmp(Link(s, i)) {
      if i < |s1| { assert s[i] == s1[i]; } else { assert s[i] == s2[i - |s1|]; }
    }
  }

  lemma {:induction false} ListKept(code: Code, code': Code, head: int, l: seq<int>)
    requires IsList(code, head, l) && |code| <= |code'|
    requires forall j | j in l :: code'[j] == code[j]
    ensures IsList(code', head, l)
  {
  }

  lemma {:induction false} InRegSound(site: Site, nvar: int, code: Code, last: int, k: Kind, ts: set<int>, fs: set<int>,
                                      reg: int, code': Code)
    requires Wf(site, nvar, code, last, k, ts, fs) && InReg(code, last, k, reg, code')
    ensures Sound(code', Pending(site.out, k, ts, fs), site.lo, last)
  {
    var p := Pending(site.out, k, ts, fs);
    if |code'| == |code| + 1 {
      SoundEmit(code, p, site.lo, last, code'[|code|]);
    } else if k.VReloc? {
      SoundReplace(code, p, site.lo, last, k.pc, code'[k.pc]);
    } else if k.VNil? {
      SoundReplace(code, p, site.lo, last, |code| - 1, code'[|code| - 1]);
    }
  }

  lemma {:induction false} InRegWf(site: Site, nvar: int, code: Code, last: int, k: Kind, ts: set<int>, fs: set<int>,
                                   reg: int, code': Code)
    requires Wf(site, nvar, code, last, k, ts, fs) && InReg(code, last, k, reg, code') && 0 <= reg < NO_REG
    ensures Wf(site, nvar, code', last, VNonReloc(reg), ts, fs)
    ensures OnlyEnd(site, code, code')
  {
    InRegSound(site, nvar, code, last, k, ts, fs, reg, code');
    assert Pending(site.out, VNonReloc(reg), ts, fs) == Pending(site.out, k, ts, fs);
  }

  /** The common step: the run of the new code is the run of the old code, except that one that
      reached the pending end now has the value in `reg`. */
  lemma {:induction false} Settle(w: World, site: Site, e: Expr, code: Code, k: Kind, ts: set<int>, fs: set<int>,
                                  reg: int, code': Code,
               s0: State, s: State, s': State)
    requires Placed(site, code, k, ts, fs) && Computes(w, site, e, code, k, ts, fs, NO_JUMP, s0, s)
    requires |code| <= |code'| && (forall j | j in ts || j in fs :: code'[j - 1] == code[j - 1])
    requires if s.pc == EndOf(code, k)
             then s'.pc == |code'| && forall x :: Get(s'.regs, x) == if x == reg then EndValue(w, code, k, s.regs)
                 else Get(s.regs, x)
             else s' == s
    ensures Computes(w, site, e, code', VNonReloc(reg), ts, fs, reg, s0, s')
  {
  }

  lemma {:induction false} LoadMeans(w: World, site: Site, e: Expr, code: Code, last: int, k: Kind, ts: set<int>,
                                     fs: set<int>,
                  reg: int, i: Instr, r0: Regs)
    requires Sound(code, Pending(site.out, k, ts, fs), site.lo, last) && Placed(site, code, k, ts, fs)
    requires Loads(k, reg, i)
    requires DenotesAt(w, site, e, code, k, ts, fs, NO_JUMP, r0)
    ensures DenotesAt(w, site, e, code + [i], VNonReloc(reg), ts, fs, reg, r0)
  {
    var p := Pending(site.out, k, ts, fs);
    assert Pending(site.out, VNonReloc(reg), ts, fs) == p && Pause(k) == {};
    RunEmit(w, code, p, site.lo, last, i, State(site.lo, r0));
    forall x { LoadsValue(w, k, reg, i, After(w, site, code, k, ts, fs, r0).regs, x); }
    Settle(w, site, e, code, k, ts, fs, reg, code + [i], Before(w, site, r0), After(w, site, code, k, ts, fs, r0),
           After(w, site, code + [i], VNonReloc(reg), ts, fs, r0));
  }

  lemma {:induction false} RelocMeans(w: World, site: Site, e: Expr, code: Code, last: int, k: Kind, ts: set<int>,
                                      fs: set<int>, reg: int, r0: Regs)
    requires Sound(code, Pending(site.out, k, ts, fs), site.lo, last) && Placed(site, code, k, ts, fs)
    requires k.VReloc? && site.lo <= k.pc == |code| - 1 && IsReloc(code[k.pc])
    requires DenotesAt(w, site, e, code, k, ts, fs, NO_JUMP, r0)
    ensures DenotesAt(w, site, e, code[k.pc := SetA(code[k.pc], reg)], VNonReloc(reg), ts, fs, reg, r0)
  {
    var p, i := Pending(site.out, k, ts, fs), SetA(code[k.pc], reg);
    assert Pending(site.out, VNonReloc(reg), ts, fs) == p;
    RunUnpause(w, code, p, site.lo, last, k.pc, i, State(site.lo, r0));
    Settle(w, site, e, code, k, ts, fs, reg, code[k.pc := i], Before(w, site, r0), After(w, site, code, k, ts, fs, r0),
           After(w, site, code[k.pc := i], VNonReloc(reg), ts, fs, r0));
  }

  lemma {:induction false} NilMeans(w: World, site: Site, e: Expr, code: Code, last: int, ts: set<int>, fs: set<int>,
                 reg: int, wide: Instr, r0: Regs)
    requires Sound(code, Pending(site.out, VNil, ts, fs), site.lo, last) && Placed(site, code, VNil, ts, fs)
    requires NilAtEnd(code, last) && site.lo < |code| && wide.OpLoadNil?
    requires forall x :: InSpan(x, wide.a, wide.n) <==>
             InSpan(x, code[|code| - 1].a, code[|code| - 1].n) || InSpan(x, reg, 0)
    requires DenotesAt(w, site, e, code, VNil, ts, fs, NO_JUMP, r0)
    ensures DenotesAt(w, site, e, code[|code| - 1 := wide], VNonReloc(reg), ts, fs, reg, r0)
  {
    var p := Pending(site.out, VNil, ts, fs);
    assert Pending(site.out, VNonReloc(reg), ts, fs) == p && Pause(VNil) == {};
    RunMergeNil(w, code, p, site.lo, last, p, State(site.lo, r0), wide, reg, 0);
    forall x { LoadsValue(w, VNil, reg, OpLoadNil(reg, 0), After(w, site, code, VNil, ts, fs, r0).regs, x); }
    Settle(w, site, e, code, VNil, ts, fs, reg, code[|code| - 1 := wide], Before(w, site, r0),
           After(w, site, code, VNil, ts, fs, r0),
           After(w, site, code[|code| - 1 := wide], VNonReloc(reg), ts, fs, r0));
  }

  lemma {:induction false} InRegMeans(w: World, site: Site, nvar: int, e: Expr, code: Code, last: int, k: Kind,
                                      ts: set<int>, fs: set<int>,
                   reg: int, code': Code, r0: Regs)
    requires Wf(site, nvar, code, last, k, ts, fs) && InReg(code, last, k, reg, code')
    requires DenotesAt(w, site, e, code, k, ts, fs, NO_JUMP, r0)
    ensures DenotesAt(w, site, e, code', VNonReloc(reg), ts, fs, reg, r0)
  {
    if |code'| == |code| + 1 {
      LoadMeans(w, site, e, code, last, k, ts, fs, reg, code'[|code|], r0);
    } else if k.VReloc? {
      RelocMeans(w, site, e, code, last, k, ts, fs, reg, r0);
    } else if k.VNil? {
      NilMeans(w, site, e, code, last, ts, fs, reg, code'[|code| - 1], r0);
    }
  }

  // ---------------------------------------------------------------- testing a value

  /** The exit list that a jump taken on `cond` joins, and the other one. */
  ghost function Kept(cond: bool, ts: set<int>, fs: set<int>): set<int> {
    if cond then ts else fs
  }

  /** Common step: the run of the tested code is the old run, except that one that had reached the
      end takes the new jump exactly when the value's truth is `cond`. */
  lemma {:induction false} Fork(w: World, site: Site, e: Expr, code: Code, k: Kind, ts: set<int>, fs: set<int>,
                                cond: bool, code': Code,
             s0: State, s: State, s': State)
    requires Placed(site, code, k, ts, fs) && Computes(w, site, e, code, k, ts, fs, NO_JUMP, s0, s)
    requires |site.code| < |code'| - 1
    requires forall j | j in ts || j in fs :: j < |code'| - 1 && code'[j - 1] == code[j - 1]
    requires if s.pc == EndOf(code, k) then
               var val := EndValue(w, code, k, s.regs);
               s' == State(if Truthy(val) == cond then |code'| - 1 else |code'|, s.regs) &&
               (Truthy(val) == cond ==> ExitOk(code', s', val, cond))
             else s' == s
    ensures Forks(w, site, e, code', Kept(cond, ts, fs) + {|code'| - 1}, Kept(!cond, ts, fs), cond, s0, s')
  {
  }

  lemma {:induction false} ForkStops(out: set<int>, ts: set<int>, fs: set<int>, cond: bool, j: int)
    ensures out + (Kept(cond, ts, fs) + {j}) + Kept(!cond, ts, fs) == out + ts + fs + {j}
  {
  }

  /** jumponcond on a value in register r. */
  lemma {:induction false} TestSetMeans(w: World, site: Site, e: Expr, code: Code, last: int, r: int, ts: set<int>,
                                        fs: set<int>, cond: bool, r0: Regs)
    requires Sound(code, Pending(site.out, VNonReloc(r), ts, fs), site.lo, last)
             && Placed(site, code, VNonReloc(r), ts, fs)
    requires DenotesAt(w, site, e, code, VNonReloc(r), ts, fs, NO_JUMP, r0)
    ensures BranchAt(w, site, e, code + [OpTestSet(NO_REG, r, cond), OpJmp(NO_JUMP)],
                     Kept(cond, ts, fs) + {|code| + 1}, Kept(!cond, ts, fs), cond, r0)
  {
    var p, i := Pending(site.out, VNonReloc(r), ts, fs), OpTestSet(NO_REG, r, cond);
    assert p == site.out + ts + fs && Pause(VNonReloc(r)) == {};
    RunEmitTest(w, code, p, site.lo, last, i, State(site.lo, r0));
    ForkStops(site.out, ts, fs, cond, |code| + 1);
    Fork(w, site, e, code, VNonReloc(r), ts, fs, cond, code + [i, OpJmp(NO_JUMP)], Before(w, site, r0),
         After(w, site, code, VNonReloc(r), ts, fs, r0),
         Run(w, code + [i, OpJmp(NO_JUMP)], site.out + ts + fs + {|code| + 1}, State(site.lo, r0)));
  }

  /** jumponcond on `not x`: the NOT at the end is removed and the test inverted. */
  lemma {:induction false} TestNotRun(w: World, code: Code, i: Instr, p: set<int>, lo: int, last: int, cond: bool,
                                      s: State)
    requires i.OpNot? && Sound(code, p, lo, last) && s.pc == lo
    ensures var e, pc := Run(w, code + [i], p + {|code|}, s), |code|;
            Run(w, code + [OpTest(i.b, !cond), OpJmp(NO_JUMP)], p + {pc + 1}, s) ==
            if e.pc == pc then State(if Truthy(RelocValue(w, i, e.regs)) == cond then pc + 1 else pc + 2, e.regs) else e
  {
    RunEmitPaused(w, code, p, lo, last, i, s);
    RunEmitTest(w, code, p, lo, last, OpTest(i.b, !cond), s);
  }

  lemma {:induction false} TestNotMeans(w: World, site: Site, e: Expr, code: Code, i: Instr, last: int, ts: set<int>,
                                        fs: set<int>, cond: bool, r0: Regs)
    requires Placed(site, code + [i], VReloc(|code|), ts, fs) && site.lo <= |site.code| <= |code| && i.OpNot?
    requires Sound(code, Pending(site.out, VReloc(|code|), ts, fs), site.lo, last)
    requires DenotesAt(w, site, e, code + [i], VReloc(|code|), ts, fs, NO_JUMP, r0)
    ensures BranchAt(w, site, e, code + [OpTest(i.b, !cond), OpJmp(NO_JUMP)],
                     Kept(cond, ts, fs) + {|code| + 1}, Kept(!cond, ts, fs), cond, r0)
  {
    var k, code' := VReloc(|code|), code + [OpTest(i.b, !cond), OpJmp(NO_JUMP)];
    var p := Pending(site.out, k, ts, fs);
    assert p == site.out + ts + fs && Pause(k) == {|code|};
    TestNotRun(w, code, i, p, site.lo, last, cond, State(site.lo, r0));
    ForkStops(site.out, ts, fs, cond, |code| + 1);
    Fork(w, site, e, code + [i], k, ts, fs, cond, code', Before(w, site, r0), After(w, site, code + [i], k, ts, fs, r0),
         Run(w, code', site.out + ts + fs + {|code| + 1}, State(site.lo, r0)));
  }

  function Negated(i: Instr): Instr
    requires IsCmp(i)
  {
    match i
    case OpCmp(op, a, b, k) => OpCmp(op, a, b, !k)
    case OpCmpI(op, inv, a, im, k) => OpCmpI(op, inv, a, im, !k)
  }

  lemma {:induction false} CmpRun(w: World, site: Site, code: Code, last: int, pc: int, ts: set<int>, fs: set<int>,
                                  r0: Regs)
    requires Sound(code, Pending(site.out, VJmp(pc), ts, fs), site.lo, last)
    requires site.lo < pc == |code| - 1 && IsCmp(code[pc - 1]) && pc - 1 !in Pending(site.out, VJmp(pc), ts, fs)
    ensures var s := After(w, site, code, VJmp(pc), ts, fs, r0);
            Run(w, code, Pending(site.out, VJmp(pc), ts, fs), State(site.lo, r0)) ==
            if s.pc == pc - 1 then State(if Truthy(EndValue(w, code, VJmp(pc), s.regs)) then pc else pc + 1, s.regs)
               else s
  {
    RunUnpauseTest(w, code, Pending(site.out, VJmp(pc), ts, fs), site.lo, last, pc - 1, State(site.lo, r0));
  }

  lemma {:induction false} CmpFork(w: World, site: Site, e: Expr, code: Code, pc: int, ts: set<int>, fs: set<int>,
                                   s0: State, s: State, s': State)
    requires Placed(site, code, VJmp(pc), ts, fs) && Computes(w, site, e, code, VJmp(pc), ts, fs, NO_JUMP, s0, s)
    requires |site.code| < pc == |code| - 1 && IsCmp(code[pc - 1]) && pc !in ts && pc !in fs
    requires s' == if s.pc == pc - 1 then State(if Truthy(EndValue(w, code, VJmp(pc), s.regs)) then pc
                                                else pc + 1, s.regs) else s
    ensures Forks(w, site, e, code, ts + {pc}, fs, true, s0, s')
  {
    Fork(w, site, e, code, VJmp(pc), ts, fs, true, code, s0, s, s');
  }

  /** A comparison already is a test that jumps when it is true. */
  lemma {:induction false} TestCmpMeans(w: World, site: Site, e: Expr, code: Code, last: int, pc: int, ts: set<int>,
                                        fs: set<int>, r0: Regs)
    requires Sound(code, Pending(site.out, VJmp(pc), ts, fs), site.lo, last) && Placed(site, code, VJmp(pc), ts, fs)
    requires site.lo <= |site.code| < pc == |code| - 1 && IsCmp(code[pc - 1]) && pc !in ts && pc !in fs
    requires DenotesAt(w, site, e, code, VJmp(pc), ts, fs, NO_JUMP, r0)
    ensures BranchAt(w, site, e, code, ts + {pc}, fs, true, r0)
  {
    CmpRun(w, site, code, last, pc, ts, fs, r0);
    assert Pending(site.out, VJmp(pc), ts, fs) == site.out + (ts + {pc}) + fs;
    CmpFork(w, site, e, code, pc, ts, fs, Before(w, site, r0), After(w, site, code, VJmp(pc), ts, fs, r0),
            Run(w, code, Pending(site.out, VJmp(pc), ts, fs), State(site.lo, r0)));
  }

  /** Negating the comparison does not change where runs get to. */
  lemma {:induction false} NegateRun(w: World, site: Site, code: Code, last: int, pc: int, ts: set<int>, fs: set<int>,
                                     r0: Regs)
    requires Sound(code, Pending(site.out, VJmp(pc), ts, fs), site.lo, last)
    requires site.lo < pc == |code| - 1 && IsCmp(code[pc - 1])
    ensures var code' := code[pc - 1 := Negated(code[pc - 1])];
            && Sound(code', Pending(site.out, VJmp(pc), ts, fs), site.lo, last)
            && After(w, site, code', VJmp(pc), ts, fs, r0) == After(w, site, code, VJmp(pc), ts, fs, r0)
  {
    var p, code' := Pending(site.out, VJmp(pc), ts, fs), code[pc - 1 := Negated(code[pc - 1])];
    RunAtStops(w, code, code', p, site.lo, last, p + {pc - 1}, State(site.lo, r0));
    assert InstrOk(code, p, last, pc - 1);
    SoundReplace(code, p, site.lo, last, pc - 1, code'[pc - 1]);
  }

  /** Once negated it jumps when it is false. */
  lemma {:induction false} NegatedRun(w: World, site: Site, code: Code, last: int, pc: int, ts: set<int>, fs: set<int>,
                                      r0: Regs)
    requires Sound(code, Pending(site.out, VJmp(pc), ts, fs), site.lo, last)
    requires site.lo < pc == |code| - 1 && IsCmp(code[pc - 1]) && pc - 1 !in Pending(site.out, VJmp(pc), ts, fs)
    ensures var s := After(w, site, code, VJmp(pc), ts, fs, r0);
            Run(w, code[pc - 1 := Negated(code[pc - 1])], Pending(site.out, VJmp(pc), ts, fs), State(site.lo, r0)) ==
            if s.pc == pc - 1 then State(if Truthy(EndValue(w, code, VJmp(pc), s.regs)) then pc + 1 else pc, s.regs)
               else s
  {
    NegateRun(w, site, code, last, pc, ts, fs, r0);
    RunUnpauseTest(w, code[pc - 1 := Negated(code[pc - 1])], Pending(site.out, VJmp(pc), ts, fs), site.lo, last, pc - 1,
                   State(site.lo, r0));
  }

  lemma {:induction false} TestNegatedMeans(w: World, site: Site, e: Expr, code: Code, last: int, pc: int, ts: set<int>,
                                            fs: set<int>,
                                            code': Code, r0: Regs)
    requires Sound(code, Pending(site.out, VJmp(pc), ts, fs), site.lo, last) && Placed(site, code, VJmp(pc), ts, fs)
    requires site.lo <= |site.code| < pc == |code| - 1 && IsCmp(code[pc - 1]) && pc !in ts && pc !in fs
    requires DenotesAt(w, site, e, code, VJmp(pc), ts, fs, NO_JUMP, r0)
    requires code' == code[pc - 1 := Negated(code[pc - 1])]
    ensures BranchAt(w, site, e, code', fs + {pc}, ts, false, r0)
  {
    NegatedRun(w, site, code, last, pc, ts, fs, r0);
    assert Pending(site.out, VJmp(pc), ts, fs) == site.out + ts + fs + {pc};
    ForkStops(site.out, ts, fs, false, pc);
    NegatedFork(w, site, e, code, pc, ts, fs, code', Before(w, site, r0), After(w, site, code, VJmp(pc), ts, fs, r0),
                Run(w, code', site.out + ts + fs + {pc}, State(site.lo, r0)));
  }

  lemma {:induction false} NegatedFork(w: World, site: Site, e: Expr, code: Code, pc: int, ts: set<int>, fs: set<int>,
                                       code': Code, s0: State, s: State, s': State)
    requires Placed(site, code, VJmp(pc), ts, fs) && Computes(w, site, e, code, VJmp(pc), ts, fs, NO_JUMP, s0, s)
    requires |site.code| < pc == |code| - 1 && IsCmp(code[pc - 1]) && pc !in ts && pc !in fs
    requires code' == code[pc - 1 := Negated(code[pc - 1])]
    requires s' == if s.pc == pc - 1
                   then State(if Truthy(EndValue(w, code, VJmp(pc), s.regs)) then pc + 1 else pc, s.regs) else s
    ensures Forks(w, site, e, code', fs + {pc}, ts, false, s0, s')
  {
    Fork(w, site, e, code, VJmp(pc), ts, fs, false, code', s0, s, s');
  }

  /** A constant of known truth needs no test. */
  lemma {:induction false} TestConstMeans(w: World, site: Site, e: Expr, code: Code, k: Kind, ts: set<int>,
                                          fs: set<int>, cond: bool, r0: Regs)
    requires Placed(site, code, k, ts, fs) && DenotesAt(w, site, e, code, k, ts, fs, NO_JUMP, r0)
    requires if cond then k.VNil? || k.VFalse? else k.VTrue? || k.VKInt? || k.VKStr?
    ensures BranchAt(w, site, e, code, Kept(cond, ts, fs), Kept(!cond, ts, fs), cond, r0)
  {
    assert Pending(site.out, k, ts, fs) + Pause(k) == site.out + Kept(cond, ts, fs) + Kept(!cond, ts, fs);
  }

  /** The other list goes through to here: patchtohere on `ds`, after the links of `ks` changed. */
  lemma {:induction false} GateMeans(w: World, site: Site, e: Expr, code: Code, last: int, ks: set<int>, ds: set<int>,
                                     cond: bool,
                  code1: Code, code2: Code, r0: Regs)
    requires Sound(code, site.out + ks + ds, site.lo, last)
    requires BranchAt(w, site, e, code, ks, ds, cond, r0)
    requires |code1| == |code|
    requires forall pc | 0 <= pc < |code| :: code1[pc] == code[pc] || (pc in ks && code1[pc].OpJmp?)
    requires Sound(code1, site.out + ks + ds, site.lo, last)
    requires Patched(code1, ds, |code|, NO_REG, |code|, code2)
    requires forall j | j in ds :: j !in ks && j !in site.out
    requires forall j | j in ks :: j !in site.out
    ensures BranchAt(w, site, e, code2, ks, {}, cond, r0)
  {
    var p, s := site.out + ks + ds, State(site.lo, r0);
    RunAtStops(w, code, code1, p, site.lo, last, p, s);
    RunPatch(w, code1, p, site.lo, last, ds, |code|, NO_REG, |code|, code2, s);
    assert p - ds == site.out + ks + {};
    var e1 := Run(w, code, p, s);
    if e1.pc in ks {
      assert code2[e1.pc - 1] == PatchedAt(code1, ds, |code|, NO_REG, |code|, e1.pc - 1);
    }
  }

  // ---------------------------------------------------------------- and, or, not

  lemma {:induction false} JoinAndStates(w: World, nvar: int, base: int, a: Expr, b: Expr, code1: Code, js: set<int>,
                      code2: Code, k: Kind, ts: set<int>, fs: set<int>, s0: State, s1: State, s: State)
    requires Scoped(b, nvar) && nvar <= base && AgreeBut(s0.regs, s1.regs, base, NO_JUMP)
    requires if s1.pc in js then
               && s == s1 && s.pc !in ts && s.pc !in fs && 0 < s.pc < |code1| && s.pc < |code2|
                  && code2[s.pc - 1] == code1[s.pc - 1]
               && ExitOk(code1, s1, Eval(w, a, s0.regs), false)
             else
               && s.pc !in js && Truthy(Eval(w, a, s0.regs))
               && AgreeBut(s1.regs, s.regs, base, NO_JUMP) && Lands(w, code2, k, ts, fs, Eval(w, b, s1.regs), s)
    ensures AgreeBut(s0.regs, s.regs, base, NO_JUMP) && Lands(w, code2, k, ts, fs + js, Eval(w, EAnd(a, b), s0.regs), s)
  {
    EvalLocal(w, b, nvar, s0.regs, s1.regs);
  }

  /** The second operand's code after the first operand's test is the code of `a and b`. */
  lemma {:induction false} JoinAndMeans(w: World, site: Site, nvar: int, a: Expr, b: Expr, code1: Code, js: set<int>,
                    code2: Code, k: Kind, ts: set<int>, fs: set<int>, r0: Regs)
    requires Scoped(b, nvar) && nvar <= site.base
    requires BranchAt(w, site, a, code1, js, {}, false, r0)
    requires var mid := Site(site.lo, site.out + js, code1, site.base);
             Placed(mid, code2, k, ts, fs) && DenotesAt(w, mid, b, code2, k, ts, fs, NO_JUMP, r0)
    requires forall j | j in js :: j !in site.out && 0 < j < |code1| <= |code2| && code2[j - 1] == code1[j - 1]
    requires forall j | j in site.out :: j < |code1|
    ensures DenotesAt(w, site, EAnd(a, b), code2, k, ts, fs + js, NO_JUMP, r0)
  {
    var mid := Site(site.lo, site.out + js, code1, site.base);
    var s0, s1, s := Before(w, site, r0), Before(w, mid, r0), After(w, mid, code2, k, ts, fs, r0);
    assert site.out + js + {} == mid.out;
    assert Pending(site.out, k, ts, fs + js) == Pending(mid.out, k, ts, fs);
    if s0.pc !in site.out {
      JoinAndStates(w, nvar, site.base, a, b, code1, js, code2, k, ts, fs, s0, s1, s);
    }
  }

  lemma {:induction false} JoinOrStates(w: World, nvar: int, base: int, a: Expr, b: Expr, code1: Code, js: set<int>,
                      code2: Code, k: Kind, ts: set<int>, fs: set<int>, s0: State, s1: State, s: State)
    requires Scoped(b, nvar) && nvar <= base && AgreeBut(s0.regs, s1.regs, base, NO_JUMP)
    requires if s1.pc in js then
               && s == s1 && s.pc !in ts && s.pc !in fs && 0 < s.pc < |code1| && s.pc < |code2|
                  && code2[s.pc - 1] == code1[s.pc - 1]
               && ExitOk(code1, s1, Eval(w, a, s0.regs), true)
             else
               && s.pc !in js && !Truthy(Eval(w, a, s0.regs))
               && AgreeBut(s1.regs, s.regs, base, NO_JUMP) && Lands(w, code2, k, ts, fs, Eval(w, b, s1.regs), s)
    ensures AgreeBut(s0.regs, s.regs, base, NO_JUMP) && Lands(w, code2, k, ts + js, fs, Eval(w, EOr(a, b), s0.regs), s)
  {
    EvalLocal(w, b, nvar, s0.regs, s1.regs);
  }

  /** The same for `a or b`. */
  lemma {:induction false} JoinOrMeans(w: World, site: Site, nvar: int, a: Expr, b: Expr, code1: Code, js: set<int>,
                    code2: Code, k: Kind, ts: set<int>, fs: set<int>, r0: Regs)
    requires Scoped(b, nvar) && nvar <= site.base
    requires BranchAt(w, site, a, code1, js, {}, true, r0)
    requires var mid := Site(site.lo, site.out + js, code1, site.base);
             Placed(mid, code2, k, ts, fs) && DenotesAt(w, mid, b, code2, k, ts, fs, NO_JUMP, r0)
    requires forall j | j in js :: j !in site.out && 0 < j < |code1| <= |code2| && code2[j - 1] == code1[j - 1]
    requires forall j | j in site.out :: j < |code1|
    ensures DenotesAt(w, site, EOr(a, b), code2, k, ts + js, fs, NO_JUMP, r0)
  {
    var mid := Site(site.lo, site.out + js, code1, site.base);
    var s0, s1, s := Before(w, site, r0), Before(w, mid, r0), After(w, mid, code2, k, ts, fs, r0);
    assert site.out + js + {} == mid.out;
    assert Pending(site.out, k, ts + js, fs) == Pending(mid.out, k, ts, fs);
    if s0.pc !in site.out {
      JoinOrStates(w, nvar, site.base, a, b, code1, js, code2, k, ts, fs, s0, s1, s);
    }
  }

  /** Between the two halves of codenot: the end value is negated, the lists are not yet. */
  ghost predicate NotRawAt(w: World, site: Site, e: Expr, code: Code, k: Kind, ts: set<int>, fs: set<int>, r0: Regs) {
    NotRaw(w, site, e, code, k, ts, fs, Before(w, site, r0), After(w, site, code, k, ts, fs, r0))
  }

  ghost predicate NotRaw(w: World, site: Site, e: Expr, code: Code, k: Kind, ts: set<int>, fs: set<int>, s0: State,
                         s: State) {
    if s0.pc in site.out then s == s0
    else
      var val := Eval(w, e, s0.regs);
      && AgreeBut(s0.regs, s.regs, site.base, NO_JUMP)
      && if s.pc in ts then ExitOk(code, s, val, true)
         else if s.pc in fs then ExitOk(code, s, val, false)
         else s.pc == EndOf(code, k) && EndValue(w, code, k, s.regs) == Bool(!Truthy(val))
  }

  lemma {:induction false} NotCmpState(w: World, site: Site, e: Expr, code: Code, code': Code, pc: int, ts: set<int>,
                                       fs: set<int>, s0: State, s: State)
    requires Placed(site, code, VJmp(pc), ts, fs) && Computes(w, site, e, code, VJmp(pc), ts, fs, NO_JUMP, s0, s)
    requires |site.code| < pc == |code| - 1 && IsCmp(code[pc - 1]) && pc !in ts && pc !in fs
    requires code' == code[pc - 1 := Negated(code[pc - 1])]
    ensures NotRaw(w, site, e, code', VJmp(pc), ts, fs, s0, s)
  {
    if s.pc in ts || s.pc in fs { assert code'[s.pc - 1] == code[s.pc - 1]; }
  }

  lemma {:induction false} NotConstMeans(w: World, site: Site, e: Expr, code: Code, k: Kind, k': Kind, ts: set<int>,
                                         fs: set<int>, r0: Regs)
    requires DenotesAt(w, site, e, code, k, ts, fs, NO_JUMP, r0)
    requires if k.VNil? || k.VFalse? then k' == VTrue else (k.VTrue? || k.VKInt? || k.VKStr?) && k' == VFalse
    ensures NotRawAt(w, site, e, code, k', ts, fs, r0)
  {
    assert Pending(site.out, k', ts, fs) + Pause(k') == Pending(site.out, k, ts, fs) + Pause(k);
    NotConstState(w, site, e, code, k, k', ts, fs, Before(w, site, r0), After(w, site, code, k, ts, fs, r0));
  }

  lemma {:induction false} NotConstState(w: World, site: Site, e: Expr, code: Code, k: Kind, k': Kind, ts: set<int>,
                                         fs: set<int>, s0: State, s: State)
    requires Computes(w, site, e, code, k, ts, fs, NO_JUMP, s0, s)
    requires if k.VNil? || k.VFalse? then k' == VTrue else (k.VTrue? || k.VKInt? || k.VKStr?) && k' == VFalse
    ensures NotRaw(w, site, e, code, k', ts, fs, s0, s)
  {
  }

  lemma {:induction false} NotCmpMeans(w: World, site: Site, e: Expr, code: Code, last: int, pc: int, ts: set<int>,
                                       fs: set<int>, r0: Regs)
    requires Sound(code, Pending(site.out, VJmp(pc), ts, fs), site.lo, last) && Placed(site, code, VJmp(pc), ts, fs)
    requires site.lo <= |site.code| < pc == |code| - 1 && IsCmp(code[pc - 1]) && pc !in ts && pc !in fs
    requires DenotesAt(w, site, e, code, VJmp(pc), ts, fs, NO_JUMP, r0)
    ensures NotRawAt(w, site, e, code[pc - 1 := Negated(code[pc - 1])], VJmp(pc), ts, fs, r0)
  {
    NegateRun(w, site, code, last, pc, ts, fs, r0);
    NotCmpState(w, site, e, code, code[pc - 1 := Negated(code[pc - 1])], pc, ts, fs,
                Before(w, site, r0), After(w, site, code, VJmp(pc), ts, fs, r0));
  }

  lemma {:induction false} NotRegMeans(w: World, site: Site, e: Expr, code: Code, last: int, r: int, ts: set<int>,
                                       fs: set<int>, r0: Regs)
    requires Sound(code, Pending(site.out, VNonReloc(r), ts, fs), site.lo, last)
             && Placed(site, code, VNonReloc(r), ts, fs)
    requires DenotesAt(w, site, e, code, VNonReloc(r), ts, fs, NO_JUMP, r0)
    ensures NotRawAt(w, site, e, code + [OpNot(0, r)], VReloc(|code|), ts, fs, r0)
  {
    var p := Pending(site.out, VNonReloc(r), ts, fs);
    assert Pending(site.out, VReloc(|code|), ts, fs) == p && Pause(VNonReloc(r)) == {}
           && Pause(VReloc(|code|)) == {|code|};
    RunEmitPaused(w, code, p, site.lo, last, OpNot(0, r), State(site.lo, r0));
  }

  lemma {:induction false} NotDropRun(w: World, site: Site, code: Code, last: int, k: Kind, ts: set<int>, fs: set<int>,
                                      code': Code, r0: Regs)
    requires Sound(code, Pending(site.out, k, ts, fs), site.lo, last)
    requires forall pc | pc in Pause(k) && 0 <= pc < |code| :: !code[pc].OpTestSet?
    requires Dropped(code, ts + fs, code')
    ensures After(w, site, code', k, fs, ts, r0) == After(w, site, code, k, ts, fs, r0)
  {
    var p := Pending(site.out, k, ts, fs);
    assert Pending(site.out, k, fs, ts) == p;
    RunDrop(w, code, p, site.lo, last, ts + fs, p + Pause(k), code', State(site.lo, r0));
  }

  ghost predicate EndKept(code: Code, code': Code, k: Kind) {
    && |code'| == |code|
    && (k.VReloc? ==> 0 <= k.pc < |code| && code'[k.pc] == code[k.pc])
    && (k.VJmp? ==> 0 < k.pc < |code| && code'[k.pc - 1] == code[k.pc - 1])
  }

  /** What a run computes does not depend on code away from its exits and its end. */
  lemma {:induction false} Carry(w: World, site: Site, e: Expr, code: Code, k: Kind, ts: set<int>, fs: set<int>,
                                 dst: int, code': Code, s0: State, s: State)
    requires Computes(w, site, e, code, k, ts, fs, dst, s0, s) && EndKept(code, code', k)
    requires forall j | j in ts || j in fs :: 0 < j < |code| && code'[j - 1] == code[j - 1]
    ensures Computes(w, site, e, code', k, ts, fs, dst, s0, s)
  {
    assert EndValue(w, code', k, s.regs) == EndValue(w, code, k, s.regs);
  }

  /** The other half: the lists change places and their tests keep no values. */
  lemma {:induction false} NotDropMeans(w: World, site: Site, e: Expr, code: Code, k: Kind, ts: set<int>, fs: set<int>,
                                        code': Code, r0: Regs)
    requires NotRawAt(w, site, e, code, k, ts, fs, r0) && Dropped(code, ts + fs, code')
    requires After(w, site, code', k, fs, ts, r0) == After(w, site, code, k, ts, fs, r0)
    requires EndKept(code, code', k) && forall j | j in ts :: j !in fs
    ensures DenotesAt(w, site, ENot(e), code', k, fs, ts, NO_JUMP, r0)
  {
    var s := After(w, site, code, k, ts, fs, r0);
    if s.pc in ts || s.pc in fs {
      if 0 < s.pc <= |code| { assert !code'[s.pc - 1].OpTestSet?; }
    } else {
      assert EndValue(w, code', k, s.regs) == EndValue(w, code, k, s.regs);
    }
  }

  // ---------------------------------------------------------------- the final value in one register

  /** Before the exits are patched: the value is in `reg` at the end of the code, or is known where
      a run leaves. */
  ghost predicate ReadyAt(w: World, site: Site, e: Expr, code: Code, ts: set<int>, fs: set<int>, reg: int, r0: Regs) {
    Ready(w, site, e, code, ts, fs, reg, Before(w, site, r0), Run(w, code, site.out + ts + fs, State(site.lo, r0)))
  }

  ghost predicate Ready(w: World, site: Site, e: Expr, code: Code, ts: set<int>, fs: set<int>, reg: int, s0: State,
                        s: State) {
    if s0.pc in site.out then s == s0
    else
      var val := Eval(w, e, s0.regs);
      && AgreeBut(s0.regs, s.regs, site.base, reg)
      && if s.pc in ts then ExitOk(code, s, val, true)
         else if s.pc in fs then ExitOk(code, s, val, false)
         else s.pc == |code| && Get(s.regs, reg) == val
  }

  lemma {:induction false} ReadyReg(w: World, site: Site, e: Expr, code: Code, ts: set<int>, fs: set<int>, reg: int,
                                    r0: Regs)
    requires DenotesAt(w, site, e, code, VNonReloc(reg), ts, fs, reg, r0)
    ensures ReadyAt(w, site, e, code, ts, fs, reg, r0)
  {
    assert Pending(site.out, VNonReloc(reg), ts, fs) + Pause(VNonReloc(reg)) == site.out + ts + fs;
  }

  lemma {:induction false} ReadyAround(w: World, site: Site, e: Expr, code: Code, last: int, ts: set<int>, fs: set<int>,
                                       reg: int, r0: Regs)
    requires Sound(code, site.out + ts + fs, site.lo, last)
    requires ReadyAt(w, site, e, code, ts, fs, reg, r0)
    ensures ReadyAt(w, site, e, code + [OpJmp(2), OpLFalseSkip(reg), OpLoadTrue(reg)], ts, fs, reg, r0)
  {
    RunAround(w, code, site.out + ts + fs, site.lo, last, reg, State(site.lo, r0));
  }

  lemma {:induction false} ReadyCmpStates(w: World, site: Site, e: Expr, code: Code, pc: int, ts: set<int>,
                                          fs: set<int>, reg: int,
                       code': Code, s0: State, s: State, s': State)
    requires Placed(site, code, VJmp(pc), ts, fs) && 0 < pc == |code| - 1 && IsCmp(code[pc - 1]) && pc !in fs
             && pc !in site.out
    requires Computes(w, site, e, code, VJmp(pc), ts, fs, NO_JUMP, s0, s) && code <= code'
    requires s' == if s.pc != pc - 1 then s
                   else if Holds(w, code[pc - 1], s.regs) == code[pc - 1].k then State(pc, s.regs)
                   else State(|code'|, s.regs[reg := False])
    ensures Ready(w, site, e, code', ts + {pc}, fs, reg, s0, s')
  {
  }

  lemma {:induction false} ReadyCmp(w: World, site: Site, e: Expr, code: Code, last: int, pc: int, ts: set<int>,
                                    fs: set<int>, reg: int, r0: Regs)
    requires Sound(code, Pending(site.out, VJmp(pc), ts, fs), site.lo, last) && Placed(site, code, VJmp(pc), ts, fs)
    requires site.lo <= |site.code| < pc == |code| - 1 && IsCmp(code[pc - 1]) && pc !in fs
    requires DenotesAt(w, site, e, code, VJmp(pc), ts, fs, NO_JUMP, r0)
    ensures ReadyAt(w, site, e, code + [OpLFalseSkip(reg), OpLoadTrue(reg)], ts + {pc}, fs, reg, r0)
  {
    var p, s := Pending(site.out, VJmp(pc), ts, fs), State(site.lo, r0);
    var code' := code + [OpLFalseSkip(reg), OpLoadTrue(reg)];
    assert p == site.out + (ts + {pc}) + fs;
    RunUnpauseTest(w, code, p, site.lo, last, pc - 1, s);
    RunBools(w, code, p, site.lo, last, reg, s);
    RunEnds(w, code, p, site.lo, last, p + {pc - 1}, s);
    ReadyCmpStates(w, site, e, code, pc, ts, fs, reg, code', Before(w, site, r0),
                   After(w, site, code, VJmp(pc), ts, fs, r0),
                   Run(w, code', p, s));
  }

  lemma {:induction false} TargetOk(code: Code, pending: set<int>, lo: int, pc: int)
    requires Sound(code, pending, lo, |code|) && lo <= pc < |code|
    requires pc + 1 == |code| || !code[pc + 1].OpJmp?
    ensures !IsTest(code[pc])
  {
    assert InstrOk(code, pending, |code|, pc);
  }

  lemma {:induction false} PatchOneSound(code: Code, pending: set<int>, lo: int, l: set<int>, reg: int, b: bool,
                                         dtarget: int, code': Code)
    requires Sound(code, pending, lo, |code|) && l <= pending
    requires Patched(code, l, |code|, reg, dtarget, code')
    requires AllSet(code, l) || (LoadsBoolAt(code, reg, b, dtarget) && forall j | j in l :: j < dtarget)
    ensures Sound(code', pending - l, lo, |code'|)
  {
    forall j | j in l
      ensures var t := if code[j - 1].OpTestSet? then |code| else dtarget; j < t <= |code| && !IsTest(code[t - 1])
    {
      TargetOk(code, pending, lo, if code[j - 1].OpTestSet? then |code| - 1 else dtarget - 1);
    }
    SoundPatch(code, pending, lo, |code|, l, |code|, reg, dtarget, code', |code|);
  }

  /** Patching one list leaves the other list's tests and the boolean loads alone. */
  lemma {:induction false} PatchKeeps(code: Code, pending: set<int>, lo: int, last: int, l: set<int>, vt: int, reg: int,
                                      dt: int, code': Code, pc: int)
    requires Sound(code, pending, lo, last) && l <= pending && Patched(code, l, vt, reg, dt, code')
    requires 0 <= pc < |code| && pc !in l && (pc + 1 in pending - l || !IsTest(code[pc]))
    ensures code'[pc] == code[pc]
  {
    assert code'[pc] == PatchedAt(code, l, vt, reg, dt, pc);
  }

  /** Patching the false list leaves the true list as it was. */
  lemma {:induction false} PatchFirst(site: Site, code: Code, ts: set<int>, fs: set<int>, reg: int, pf: int, pt: int,
                                      code1: Code)
    requires Sound(code, site.out + ts + fs, site.lo, |code|)
    requires Apart(site, ts, fs)
    requires Patched(code, fs, |code|, reg, pf, code1)
    requires (AllSet(code, fs) && AllSet(code, ts)) ||
             (LoadsBoolAt(code, reg, false, pf) && LoadsBoolAt(code, reg, true, pt)
              && forall j | j in fs || j in ts :: j < pf)
    ensures Sound(code1, site.out + ts, site.lo, |code1|) && |code1| == |code|
    ensures forall j | j in ts :: 0 < j && code1[j - 1] == code[j - 1]
    ensures AllSet(code1, ts) || (LoadsBoolAt(code1, reg, true, pt) && forall j | j in ts :: j < pt)
  {
    var p, q := site.out + ts + fs, site.out + ts;
    assert p - fs == q;
    PatchOneSound(code, p, site.lo, fs, reg, false, pf, code1);
    forall j | j in ts ensures code1[j - 1] == code[j - 1] {
      PatchKeeps(code, p, site.lo, |code|, fs, |code|, reg, pf, code1, j - 1);
    }
    if LoadsBoolAt(code, reg, true, pt) { PatchKeeps(code, p, site.lo, |code|, fs, |code|, reg, pf, code1, pt); }
  }

  lemma {:induction false} FinishSound(site: Site, code: Code, ts: set<int>, fs: set<int>, reg: int, pf: int, pt: int,
                                       code1: Code, code2: Code)
    requires Sound(code, site.out + ts + fs, site.lo, |code|)
    requires Apart(site, ts, fs)
    requires Patched(code, fs, |code|, reg, pf, code1) && Patched(code1, ts, |code|, reg, pt, code2)
    requires (AllSet(code, fs) && AllSet(code, ts)) ||
             (LoadsBoolAt(code, reg, false, pf) && LoadsBoolAt(code, reg, true, pt)
              && forall j | j in fs || j in ts :: j < pf)
    ensures Sound(code2, site.out, site.lo, |code2|)
  {
    assert site.out + ts - ts == site.out;
    PatchFirst(site, code, ts, fs, reg, pf, pt, code1);
    PatchOneSound(code1, site.out + ts, site.lo, ts, reg, true, pt, code2);
  }

  lemma {:induction false} FinishRun(w: World, site: Site, code: Code, ts: set<int>, fs: set<int>, reg: int, pf: int,
                                     pt: int,
                                     code1: Code, code2: Code, r0: Regs)
    requires Sound(code, site.out + ts + fs, site.lo, |code|)
    requires Apart(site, ts, fs)
    requires Patched(code, fs, |code|, reg, pf, code1) && Patched(code1, ts, |code|, reg, pt, code2)
    requires (AllSet(code, fs) && AllSet(code, ts)) ||
             (LoadsBoolAt(code, reg, false, pf) && LoadsBoolAt(code, reg, true, pt)
              && forall j | j in fs || j in ts :: j < pf)
    ensures Run(w, code2, site.out, State(site.lo, r0)) ==
            FinishState(code, ts, fs, reg, Run(w, code, site.out + ts + fs, State(site.lo, r0)))
  {
    var p, q, s := site.out + ts + fs, site.out + ts, State(site.lo, r0);
    assert p - fs == q && q - ts == site.out;
    RunPatchList(w, code, p, site.lo, |code|, fs, reg, false, pf, code1, s);
    PatchFirst(site, code, ts, fs, reg, pf, pt, code1);
    RunPatchList(w, code1, q, site.lo, |code|, ts, reg, true, pt, code2, s);
  }

  /** The state at the end of the patched code, from the state `s` at the exit. */
  ghost function FinishState(code: Code, ts: set<int>, fs: set<int>, reg: int, s: State): State {
    if s.pc in fs && 0 < s.pc <= |code| then State(|code|, ExitRegs(code[s.pc - 1], reg, false, s.regs))
    else if s.pc in ts && 0 < s.pc <= |code| then State(|code|, ExitRegs(code[s.pc - 1], reg, true, s.regs))
    else s
  }

  lemma {:induction false} ExitValue(code: Code, s: State, val: Value, b: bool, reg: int)
    requires ExitOk(code, s, val, b) && reg != NO_REG
    ensures var r := ExitRegs(code[s.pc - 1], reg, b, s.regs);
            Get(r, reg) == val && forall x | x != reg :: Get(r, x) == Get(s.regs, x)
  {
  }

  lemma {:induction false} FinishStates(w: World, site: Site, e: Expr, code: Code, ts: set<int>, fs: set<int>, reg: int,
                                        code2: Code, s0: State, s: State)
    requires Ready(w, site, e, code, ts, fs, reg, s0, s) && reg != NO_REG && |code2| == |code|
    requires Apart(site, ts, fs)
    ensures Computes(w, site, e, code2, VNonReloc(reg), {}, {}, reg, s0, FinishState(code, ts, fs, reg, s))
  {
    if s0.pc !in site.out {
      if s.pc in ts { ExitValue(code, s, Eval(w, e, s0.regs), true, reg); }
      if s.pc in fs { ExitValue(code, s, Eval(w, e, s0.regs), false, reg); }
    }
  }

  /** Once its exits are patched, the code leaves the value in `reg` and falls off its end. */
  lemma {:induction false} FinishMeans(w: World, site: Site, e: Expr, code: Code, ts: set<int>, fs: set<int>, reg: int,
                                       code2: Code, r0: Regs)
    requires ReadyAt(w, site, e, code, ts, fs, reg, r0) && reg != NO_REG && |code2| == |code|
    requires Apart(site, ts, fs)
    requires var s := Run(w, code, site.out + ts + fs, State(site.lo, r0));
             Run(w, code2, site.out, State(site.lo, r0)) == FinishState(code, ts, fs, reg, s)
    ensures DenotesAt(w, site, e, code2, VNonReloc(reg), {}, {}, reg, r0)
  {
    assert Pending(site.out, VNonReloc(reg), {}, {}) + Pause(VNonReloc(reg)) == site.out;
    FinishStates(w, site, e, code, ts, fs, reg, code2, Before(w, site, r0),
                 Run(w, code, site.out + ts + fs, State(site.lo, r0)));
  }

  // ---------------------------------------------------------------- comparisons

  /** Both operands are evaluated: what their descriptors stand for are their values. */
  ghost predicate PairAt(w: World, site: Site, a: Expr, ka: Kind, b: Expr, kb: Kind, code: Code, r0: Regs)
    requires Simple(ka) && Simple(kb)
  {
    Pair(w, site, a, ka, b, kb, code, Before(w, site, r0), Run(w, code, site.out, State(site.lo, r0)))
  }

  ghost predicate Pair(w: World, site: Site, a: Expr, ka: Kind, b: Expr, kb: Kind, code: Code, s0: State, s: State)
    requires Simple(ka) && Simple(kb)
  {
    if s0.pc in site.out then s == s0
    else
      && AgreeBut(s0.regs, s.regs, site.base, NO_JUMP) && s.pc == |code|
      && KindValue(w, ka, s.regs) == Eval(w, a, s0.regs)
      && KindValue(w, kb, s.regs) == Eval(w, b, s0.regs)
  }

  predicate Simple(k: Kind) {
    k.VNonReloc? || k.VKInt?
  }

  /** A register operand below `base` survives code that only touches registers from `base` on. */
  predicate Below(k: Kind, base: int) {
    k.VNonReloc? ==> 0 <= k.r < base
  }

  lemma {:induction false} PairStates(w: World, site: Site, nvar: int, a: Expr, ka: Kind, b: Expr, kb: Kind,
                                      code1: Code, base1: int, code2: Code,
                   s0: State, s1: State, s: State)
    requires Simple(ka) && Simple(kb) && Below(ka, base1) && nvar <= site.base <= base1 && Scoped(b, nvar)
    requires Computes(w, site, a, code1, ka, {}, {}, NO_JUMP, s0, s1)
    requires Computes(w, Site(site.lo, site.out, code1, base1), b, code2, kb, {}, {}, NO_JUMP, s1, s)
    requires |code1| !in site.out
    ensures Pair(w, site, a, ka, b, kb, code2, s0, s)
  {
    if s0.pc !in site.out {
      EvalLocal(w, b, nvar, s0.regs, s1.regs);
      assert s1.pc == |code1| && s.pc == |code2|;
      assert KindValue(w, ka, s.regs) == KindValue(w, ka, s1.regs);
    }
  }

  lemma {:induction false} PairMeans(w: World, site: Site, nvar: int, a: Expr, ka: Kind, b: Expr, kb: Kind, code1: Code,
                                     base1: int, code2: Code, r0: Regs)
    requires Simple(ka) && Simple(kb) && Below(ka, base1) && nvar <= site.base <= base1 && Scoped(b, nvar)
    requires DenotesAt(w, site, a, code1, ka, {}, {}, NO_JUMP, r0)
    requires DenotesAt(w, Site(site.lo, site.out, code1, base1), b, code2, kb, {}, {}, NO_JUMP, r0)
    requires |code1| !in site.out
    ensures PairAt(w, site, a, ka, b, kb, code2, r0)
  {
    var mid := Site(site.lo, site.out, code1, base1);
    assert Pending(site.out, ka, {}, {}) + Pause(ka) == site.out
           && Pending(site.out, kb, {}, {}) + Pause(kb) == site.out;
    PairStates(w, site, nvar, a, ka, b, kb, code1, base1, code2, Before(w, site, r0), Before(w, mid, r0),
               After(w, mid, code2, kb, {}, {}, r0));
  }

  /** The first operand, a small integer kept back so far, is loaded after all. */
  lemma {:induction false} PairLoadMeans(w: World, site: Site, a: Expr, i: int, b: Expr, kb: Kind, code1: Code,
                                         base1: int, r: int, code2: Code, r0: Regs)
    requires Simple(kb) && Below(kb, base1) && site.base <= base1
    requires PairAt(w, site, a, VKInt(i), b, kb, code1, r0)
    requires DenotesAt(w, Site(site.lo, site.out, code1, base1), EInt(i), code2, VNonReloc(r), {}, {}, NO_JUMP, r0)
    requires |code1| !in site.out
    ensures PairAt(w, site, a, VNonReloc(r), b, kb, code2, r0)
  {
    assert Pending(site.out, VNonReloc(r), {}, {}) + Pause(VNonReloc(r)) == site.out;
  }

  /** `i` compares what the descriptors x and y stand for. */
  predicate Compares(i: Instr, op: CmpOp, x: Kind, y: Kind) {
    || (x.VNonReloc? && y.VNonReloc? && i == OpCmp(op, x.r, y.r, true))
    || (x.VNonReloc? && y.VKInt? && i == OpCmpI(op, false, x.r, y.i, true))
    || (x.VKInt? && y.VNonReloc? && i == OpCmpI(op, true, y.r, x.i, true))
  }

  /** Code behind the end is not run. */
  lemma {:induction false} RunShort(w: World, code: Code, code': Code, pending: set<int>, lo: int, last: int,
                                    stops: set<int>, s: State)
    requires Sound(code, pending, lo, last) && s.pc == lo && code <= code' && |code| in stops
    requires forall pc | lo <= pc < |code| :: pc in pending <==> pc in stops
    ensures Run(w, code', stops, s) == Run(w, code, pending, s)
    ensures var e := Run(w, code, pending, s); lo <= e.pc <= |code| && (e.pc == |code| || e.pc in pending)
  {
    RunEnds(w, code, pending, lo, last, pending, s);
    RunMorph(w, code, code', pending, lo, last, pending, stops, s);
  }

  lemma {:induction false} OrderMeans(w: World, site: Site, e: Expr, op: CmpOp, a: Expr, ka: Kind, b: Expr, kb: Kind,
                                      code: Code, last: int, i: Instr, r0: Regs)
    requires Sound(code, site.out, site.lo, last)
    requires Simple(ka) && Simple(kb) && PairAt(w, site, a, ka, b, kb, code, r0)
    requires (e == ELess(op, a, b) && Compares(i, op, ka, kb)) || (e == EGreater(op, a, b) && Compares(i, op, kb, ka))
    ensures DenotesAt(w, site, e, code + [i, OpJmp(NO_JUMP)], VJmp(|code| + 1), {}, {}, NO_JUMP, r0)
  {
    var code', s := code + [i, OpJmp(NO_JUMP)], State(site.lo, r0);
    assert Pending(site.out, VJmp(|code| + 1), {}, {}) + Pause(VJmp(|code| + 1)) == site.out + {|code|, |code| + 1};
    RunShort(w, code, code', site.out, site.lo, last, site.out + {|code|, |code| + 1}, s);
  }
}
