/** The expression part of the Lua code generator, as it patches its code array in place. */
module LuaCode {
  import opened LuaVm
  import opened LuaMeaning
  import opened LuaSteps
  import opened LuaBlock

  /** fitsBx */
  predicate FitsBx(i: int) {
    -0xFFFF <= i <= 0x1FFFF - 0xFFFF
  }

  /** fitsC */
  predicate FitsC(i: int) {
    -127 <= i <= 128
  }

  /** isSCnumber on integers: a constant without jumps that fits an immediate operand. */
  predicate IsSCNumber(v: ExpDesc) {
    v.k.VKInt? && v.t == v.f && FitsC(v.k.i)
  }

  /** An operand of a comparison instruction: a register, or a constant that fits. */
  predicate IsOperand(k: Kind) {
    Simple(k) && (k.VKInt? ==> FitsC(k.i))
  }

  predicate IsLeaf(e: Expr) {
    e.ENil? || e.ETrue? || e.EFalse? || e.EInt? || e.EStr? || e.ELocal? || e.EUpval?
  }

  /** init_exp and singlevaraux: the descriptor of a literal or a variable. */
  function LeafKind(e: Expr): Kind
    requires IsLeaf(e)
  {
    match e
    case ENil => VNil
    case ETrue => VTrue
    case EFalse => VFalse
    case EInt(i) => VKInt(i)
    case EStr(s) => VKStr(s)
    case ELocal(r) => VLocal(r)
    case EUpval(u) => VUpval(u)
  }

  function Max(a: int, b: int): int {
    if a < b then b else a
  }

  /** How many registers above the active ones the code for `e` uses at a time. */
  function Need(e: Expr): int {
    match e
    case EParen(e) => Need(e)
    case ENot(e) => Max(1, Need(e))
    case EAnd(a, b) => Max(1, Max(Need(a), Need(b)))
    case EOr(a, b) => Max(1, Max(Need(a), Need(b)))
    case ELess(_, a, b) => Max(2, Max(Need(a), 1 + Need(b)))
    case EGreater(_, a, b) => Max(2, Max(Need(a), 1 + Need(b)))
    case _ => 0
  }

  lemma {:induction false} NeedOperands(e: Expr)
    requires e.EAnd? || e.EOr? || e.ELess? || e.EGreater?
    ensures 1 <= Need(e) && Need(e.a) <= Need(e) && Need(e.b) <= Need(e)
    ensures e.ELess? || e.EGreater? ==> 2 <= Need(e) && 1 + Need(e.b) <= Need(e)
  {
  }

  class FuncState {
    var code: Code
    var lasttarget: int
    var freereg: int
    const nactvar: int

    /** open_func, for a body whose local variables are the parameters. */
    constructor (nvar: int)
      requires 0 <= nvar <= MAX_FSTACK
      ensures code == [] && nactvar == freereg == nvar && lasttarget == 0
    {
      code, lasttarget, freereg, nactvar := [], 0, nvar, nvar;
    }

    // ---------------------------------------------------------------- limits

    /** No jump is out of range while the code is shorter than this. */
    ghost predicate TooLong()
      reads this
    {
      |code| >= OFFSET_sJ
    }

    /** A limit is exceeded if `top` registers are needed. */
    ghost predicate Full(top: int)
      reads this
    {
      top > MAX_FSTACK || TooLong()
    }

    // ---------------------------------------------------------------- jump lists

    /** luaK_code */
    method Emit(i: Instr) returns (pc: int)
      modifies this`code
      ensures code == old(code) + [i] && pc == |old(code)|
    {
      code := code + [i];
      pc := |code| - 1;
    }

    /** condjump: a test and the jump that it controls */
    method CondJump(i: Instr) returns (pc: int)
      modifies this`code
      ensures code == old(code) + [i, OpJmp(NO_JUMP)] && pc == |old(code)| + 1
    {
      pc := Emit(i);
      pc := Emit(OpJmp(NO_JUMP));
    }

    /** removelastinstruction */
    method RemoveLastInstruction() returns (last: Instr)
      requires |code| > 0
      modifies this`code
      ensures old(code) == code + [last]
    {
      last := code[|code| - 1];
      code := code[..|code| - 1];
    }

    /** luaK_getlabel */
    method GetLabel() returns (pc: int)
      modifies this`lasttarget
      ensures lasttarget == pc == |code|
    {
      lasttarget := |code|;
      pc := |code|;
    }

    /** getjump */
    method GetJump(pc: int) returns (next: int)
      requires 0 <= pc < |code| && code[pc].OpJmp?
      ensures next == if code[pc].sj == NO_JUMP then NO_JUMP else Target(code, pc)
    {
      var offset := code[pc].sj;
      if offset == NO_JUMP {
        next := NO_JUMP;
      } else {
        next := (pc + 1) + offset;
      }
    }

    /** fixjump */
    method FixJump(pc: int, dest: int) returns (st: Status)
      requires 0 <= pc < |code| && code[pc].OpJmp? && dest != NO_JUMP
      modifies this`code
      ensures st.Ok? <==> JumpFits(pc, dest)
      ensures code == if st.Ok? then old(code)[pc := OpJmp(dest - (pc + 1))] else old(code)
    {
      var offset := dest - (pc + 1);
      if !(-OFFSET_sJ <= offset <= MAXARG_sJ - OFFSET_sJ) {
        return LimitExceeded;
      }
      code := code[pc := OpJmp(offset)];
      st := Ok;
    }

    /** The loop of luaK_concat: the last jump of a list. */
    method LastJump(head: int, ghost l: seq<int>) returns (list: int)
      requires IsList(code, head, l) && l != []
      ensures list == l[|l| - 1]
    {
      list := head;
      ghost var i := 0;
      var next := GetJump(list);
      while next != NO_JUMP
        invariant 0 <= i < |l| && list == l[i]
        invariant next == if i + 1 < |l| then l[i + 1] else NO_JUMP
        decreases |l| - i
      {
        list, i := next, i + 1;
        next := GetJump(list);
      }
    }

    /** luaK_concat appends the second list to the first by changing only the link of its last jump. */
    method Concat(l1: int, l2: int, ghost s1: seq<int>, ghost s2: seq<int>) returns (st: Status, l: int)
      requires IsList(code, l1, s1) && IsList(code, l2, s2)
      requires forall i, j | 0 <= i < |s1| && 0 <= j < |s2| :: s1[i] != s2[j]
      modifies this`code
      ensures st.Ok? ==> IsList(code, l, s1 + s2)
      ensures |code| == |old(code)|
      ensures forall pc | 0 <= pc < |code| ::
                code[pc] == old(code)[pc] || (s1 != [] && s2 != [] && pc == s1[|s1| - 1] && code[pc].OpJmp?)
      ensures st.LimitExceeded? ==> TooLong()
    {
      st, l := Ok, l1;
      if l2 == NO_JUMP {
        assert s1 + s2 == s1;
      } else if l1 == NO_JUMP {
        l := l2;
        assert s1 + s2 == s2;
      } else {
        var list := LastJump(l1, s1);
        st := FixJump(list, l2);
        if st.Ok? { LinkLists(old(code), l1, s1, l2, s2, code); }
      }
    }

    /** patchtestreg */
    method PatchTestReg(node: int, reg: int) returns (patched: bool)
      requires 0 <= node < |code| && code[node].OpJmp?
      modifies this`code
      ensures patched <==> node >= 1 && old(code)[node - 1].OpTestSet?
      ensures code == if patched then old(code)[node - 1 := PatchTest(old(code)[node - 1], reg)] else old(code)
    {
      var at := if node >= 1 && IsTest(code[node - 1]) then node - 1 else node;  // getjumpcontrol
      var i := code[at];
      if !i.OpTestSet? {
        return false;
      }
      if reg != NO_REG && reg != i.b {
        code := code[at := OpTestSet(reg, i.b, i.k)];
      } else {
        code := code[at := OpTest(i.b, i.k)];
      }
      patched := true;
    }

    /** The body of patchlistaux's loop. */
    method PatchJump(node: int, vtarget: int, reg: int, dtarget: int) returns (st: Status)
      requires 0 <= node < |code| && code[node].OpJmp? && vtarget != NO_JUMP && -1 <= vtarget <= |code|
               && -1 <= dtarget <= |code|
      requires dtarget == NO_JUMP ==> node >= 1 && code[node - 1].OpTestSet?
      modifies this`code
      ensures st.Ok? ==>
        if node >= 1 && old(code)[node - 1].OpTestSet?
        then code == old(code)[node - 1 := PatchTest(old(code)[node - 1], reg)][node := OpJmp(vtarget - (node + 1))]
        else code == old(code)[node := OpJmp(dtarget - (node + 1))]
      ensures st.LimitExceeded? ==> TooLong()
    {
      var hasValue := PatchTestReg(node, reg);
      if hasValue {
        st := FixJump(node, vtarget);
      } else {
        st := FixJump(node, dtarget);
      }
    }

    /** patchlistaux visits every jump of the list once and sends it to one of the two targets. */
    method PatchListAux(head: int, vtarget: int, reg: int, dtarget: int, ghost l: seq<int>) returns (st: Status)
      requires IsList(code, head, l) && vtarget != NO_JUMP && -1 <= vtarget <= |code| && -1 <= dtarget <= |code|
      requires dtarget == NO_JUMP ==> AllSet(code, JumpSet(l))
      modifies this`code
      ensures st.Ok? ==> Patched(old(code), JumpSet(l), vtarget, reg, dtarget, code)
      ensures st.LimitExceeded? ==> TooLong()
    {
      var list := head;
      ghost var i, done := 0, {};
      while list != NO_JUMP
        invariant 0 <= i <= |l| && list == if i < |l| then l[i] else NO_JUMP
        invariant done <= JumpSet(l) && forall k | 0 <= k < |l| :: l[k] in done <==> k < i
        invariant Patched(old(code), done, vtarget, reg, dtarget, code)
        decreases |l| - i
      {
        assert l[i] in JumpSet(l);
        PatchedRest(old(code), done, list, vtarget, reg, dtarget, code);
        var next := GetJump(list);
        label step:
        :- PatchJump(list, vtarget, reg, dtarget);
        PatchedNext(old(code), done, list, vtarget, reg, dtarget, old@step(code), code);
        list, i, done := next, i + 1, done + {list};
      }
      assert done == JumpSet(l);
      st := Ok;
    }

    /** removevalues */
    method RemoveValues(head: int, ghost l: seq<int>)
      requires IsList(code, head, l)
      modifies this`code
      ensures Dropped(old(code), JumpSet(l), code)
    {
      var list := head;
      ghost var i, done := 0, {};
      while list != NO_JUMP
        invariant 0 <= i <= |l| && list == if i < |l| then l[i] else NO_JUMP
        invariant done <= JumpSet(l) && forall k | 0 <= k < |l| :: l[k] in done <==> k < i
        invariant Dropped(old(code), done, code)
        decreases |l| - i
      {
        DroppedRest(old(code), done, list, code);
        label step:
        var _ := PatchTestReg(list, NO_REG);
        DroppedNext(old(code), done, list, old@step(code), code);
        var next := GetJump(list);
        list, i, done := next, i + 1, done + {list};
      }
      assert done == JumpSet(l);
    }

    /** need_value */
    method NeedValue(head: int, ghost l: seq<int>) returns (need: bool)
      requires IsList(code, head, l)
      ensures !need <==> forall k | 0 <= k < |l| :: l[k] > 0 && code[l[k] - 1].OpTestSet?
      ensures !need ==> AllSet(code, JumpSet(l))
    {
      var list := head;
      ghost var i := 0;
      while list != NO_JUMP
        invariant 0 <= i <= |l| && list == if i < |l| then l[i] else NO_JUMP
        invariant forall k | 0 <= k < i :: l[k] > 0 && code[l[k] - 1].OpTestSet?
        decreases |l| - i
      {
        var control := if list >= 1 && IsTest(code[list - 1]) then list - 1 else list;
        if !code[control].OpTestSet? {
          return true;
        }
        list := GetJump(list);
        i := i + 1;
      }
      need := false;
    }

    /** luaK_nil: a LOADNIL for registers from..from+n-1, merged with the previous one if possible. */
    method LoadNil(from: int, n: nat)
      requires n >= 1 && lasttarget >= 0
      modifies this`code
      ensures NilInto(old(code), lasttarget, from, n - 1, code)
    {
      var l := from + n - 1;
      if |code| > lasttarget && code[|code| - 1].OpLoadNil? {  // previousinstruction
        var pfrom := code[|code| - 1].a;
        var pl := pfrom + code[|code| - 1].n;
        if pfrom <= from <= pl + 1 || from <= pfrom <= l + 1 {
          var first := if pfrom < from then pfrom else from;
          var last := if pl > l then pl else l;
          code := code[|code| - 1 := OpLoadNil(first, last - first)];
          ghost var m, span, pspan := n - 1, last - first, pl - pfrom;
          assert forall x :: InSpan(x, first, span) <==> InSpan(x, pfrom, pspan) || InSpan(x, from, m);
          return;
        }
      }
      var _ := Emit(OpLoadNil(from, n - 1));
    }

    // ---------------------------------------------------------------- registers

    /** luaK_reserveregs with luaK_checkstack */
    method ReserveRegs(n: int) returns (st: Status)
      modifies this`freereg
      ensures st.Ok? <==> old(freereg) + n <= MAX_FSTACK
      ensures freereg == if st.Ok? then old(freereg) + n else old(freereg)
    {
      if freereg + n > MAX_FSTACK {
        return LimitExceeded;
      }
      freereg := freereg + n;
      st := Ok;
    }

    /** freereg; the register must be the one on top. */
    method FreeReg(reg: int)
      requires reg >= nactvar ==> reg == freereg - 1
      modifies this`freereg
      ensures freereg == if reg >= nactvar then old(freereg) - 1 else old(freereg)
    {
      if reg >= nactvar {
        freereg := freereg - 1;
        assert reg == freereg;
      }
    }

    // ---------------------------------------------------------------- what the methods maintain

    /** The descriptor's lists are threaded through well-formed code that computes `e`. */
    ghost predicate InPlace(site: Site, e: Expr, v: ExpDesc, tl: seq<int>, fl: seq<int>, dst: int)
      reads this
    {
      && Wf(site, nactvar, code, lasttarget, v.k, JumpSet(tl), JumpSet(fl))
      && IsList(code, v.t, tl) && IsList(code, v.f, fl)
      && Denotes(site, e, code, v.k, JumpSet(tl), JumpSet(fl), dst)
    }

    /** Registers in use: those below the site's base, and the one that holds the value, if any. */
    ghost predicate Stacked(site: Site, k: Kind)
      reads this
    {
      && 0 <= nactvar <= site.base <= freereg <= MAX_FSTACK
      && if k.VNonReloc? && k.r >= nactvar then k.r == site.base == freereg - 1 else freereg == site.base
    }

    ghost predicate Valued(site: Site, e: Expr, v: ExpDesc, tl: seq<int>, fl: seq<int>)
      reads this
    {
      InPlace(site, e, v, tl, fl, NO_JUMP) && Stacked(site, v.k)
    }

    // ---------------------------------------------------------------- values into registers

    /** luaK_dischargevars */
    method DischargeVars(v: ExpDesc, ghost site: Site, ghost e: Expr, ghost tl: seq<int>, ghost fl: seq<int>)
      returns (v': ExpDesc)
      requires InPlace(site, e, v, tl, fl, NO_JUMP) && nactvar <= NO_REG
      modifies this`code
      ensures InPlace(site, e, v', tl, fl, NO_JUMP)
      ensures v' == v.(k := if v.k.VLocal? then VNonReloc(v.k.r) else if v.k.VUpval? then VReloc(|old(code)|) else v.k)
      ensures code == if v.k.VUpval? then old(code) + [OpGetUpval(0, v.k.u)] else old(code)
    {
      v' := v;
      match v.k
      case VLocal(r) =>
        LocalStep(site, nactvar, e, code, lasttarget, r, JumpSet(tl), JumpSet(fl));
        v' := v.(k := VNonReloc(r));
      case VUpval(u) =>
        UpvalStep(site, nactvar, e, code, lasttarget, u, JumpSet(tl), JumpSet(fl));
        var pc := Emit(OpGetUpval(0, u));
        ListKept(old(code), code, v.t, tl);
        ListKept(old(code), code, v.f, fl);
        v' := v.(k := VReloc(pc));
      case _ =>
    }

    /** The switch of discharge2reg; a comparison stays as it is. */
    method LoadKind(k: Kind, reg: int)
      requires lasttarget >= 0 && !k.VLocal? && !k.VUpval? && !k.VJmp?
      requires k.VReloc? ==> 0 <= k.pc < |code| && IsReloc(code[k.pc])
      modifies this`code
      ensures InReg(old(code), lasttarget, k, reg, code)
    {
      match k
      case VNil => LoadNil(reg, 1);
      case VFalse => var _ := Emit(OpLoadFalse(reg));
      case VTrue => var _ := Emit(OpLoadTrue(reg));
      case VKStr(s) => var _ := Emit(OpLoadK(reg, Str(s)));
      case VKInt(i) =>  // luaK_int
        if FitsBx(i) {
          var _ := Emit(OpLoadI(reg, i));
        } else {
          var _ := Emit(OpLoadK(reg, Int(i)));
        }
      case VReloc(pc) => code := code[pc := SetA(code[pc], reg)];
      case VNonReloc(r) =>
        if r != reg { var _ := Emit(OpMove(reg, r)); }
    }

    /** discharge2reg */
    method Discharge2Reg(v: ExpDesc, reg: int, ghost site: Site, ghost e: Expr, ghost tl: seq<int>, ghost fl: seq<int>)
      returns (v': ExpDesc)
      requires InPlace(site, e, v, tl, fl, NO_JUMP) && nactvar <= NO_REG && 0 <= reg < NO_REG
      modifies this`code
      ensures v.k.VJmp? ==> v' == v && code == old(code)
      ensures !v.k.VJmp? ==> v' == v.(k := VNonReloc(reg)) && InPlace(site, e, v', tl, fl, reg)
    {
      v' := DischargeVars(v, site, e, tl, fl);
      if v'.k.VJmp? {
        return;
      }
      ghost var k, before := v'.k, code;
      LoadKind(v'.k, reg);
      InRegStep(site, nactvar, e, before, lasttarget, k, JumpSet(tl), JumpSet(fl), reg, code);
      OnlyEndLists(site, before, code, v.t, tl, v.f, fl);
      v' := v.(k := VNonReloc(reg));
    }

    /** discharge2anyreg */
    method Discharge2AnyReg(v: ExpDesc, ghost site: Site, ghost e: Expr, ghost tl: seq<int>, ghost fl: seq<int>)
      returns (st: Status, v': ExpDesc)
      requires Valued(site, e, v, tl, fl) && !v.k.VJmp?
      modifies this`code, this`freereg
      ensures st.Ok? ==> Valued(site, e, v', tl, fl) && v'.k.VNonReloc? && v' == v.(k := v'.k)
      ensures st.LimitExceeded? ==> Full(site.base + 1)
    {
      st, v' := Ok, v;
      if !v.k.VNonReloc? {
        :- ReserveRegs(1);
        v' := Discharge2Reg(v, freereg - 1, site, e, tl, fl);
        FreshStep(site, e, code, v'.k, JumpSet(tl), JumpSet(fl), freereg - 1);
      }
    }

    /** freeexp */
    method FreeExp(v: ExpDesc)
      requires v.k.VNonReloc? && v.k.r >= nactvar ==> v.k.r == freereg - 1
      modifies this`freereg
      ensures freereg == if v.k.VNonReloc? && v.k.r >= nactvar then old(freereg) - 1 else old(freereg)
    {
      if v.k.VNonReloc? {
        FreeReg(v.k.r);
      }
    }

    // ---------------------------------------------------------------- exp2reg

    /** Before the exits of an expression are patched: what is still open, and that the value is
        ready wherever a run gets to. */
    ghost predicate Open(site: Site, e: Expr, t: int, tl: seq<int>, f: int, fl: seq<int>, reg: int)
      reads this
    {
      && BranchWf(site, code, lasttarget, JumpSet(tl), JumpSet(fl))
         && ReadyAll(site, e, code, JumpSet(tl), JumpSet(fl), reg)
      && IsList(code, t, tl) && IsList(code, f, fl)
    }

    /** The two boolean loads of exp2reg, behind a jump around them unless the expression is a test. */
    method LoadBools(isTest: bool, reg: int) returns (st: Status, pf: int, pt: int)
      requires |code| > 0 ==> !IsTest(code[|code| - 1])
      modifies this`code, this`lasttarget
      ensures st.Ok? ==> code == old(code) + (if isTest then [] else [OpJmp(2)]) + [OpLFalseSkip(reg), OpLoadTrue(reg)]
      ensures st.Ok? ==> lasttarget == |code| && pf == |code| - 2 && pt == |code| - 1
      ensures st.LimitExceeded? ==> TooLong()
    {
      pf, pt := NO_JUMP, NO_JUMP;
      var fj := NO_JUMP;
      if !isTest { fj := Emit(OpJmp(NO_JUMP)); }
      var here := GetLabel();
      pf := Emit(OpLFalseSkip(reg));
      here := GetLabel();
      pt := Emit(OpLoadTrue(reg));
      here := GetLabel();
      ghost var before := code;
      :- PatchListAux(fj, here, NO_REG, here, if isTest then [] else [fj]);
      BoolsText(old(code), isTest, reg, before, code);
      st := Ok;
    }

    /** The end of exp2reg: both lists are patched, and the value is in `reg` at the end of the code. */
    method PatchExits(t: int, f: int, reg: int, pf: int, pt: int,
                      ghost site: Site, ghost e: Expr, ghost tl: seq<int>, ghost fl: seq<int>) returns (st: Status)
      requires Open(site, e, t, tl, f, fl, reg) && 0 <= reg < NO_REG && -1 <= pf <= |code| && -1 <= pt <= |code|
      requires ExitTargets(code, reg, pf, pt, JumpSet(tl), JumpSet(fl))
      modifies this`code, this`lasttarget
      ensures st.Ok? ==> InPlace(site, e, ExpDesc(VNonReloc(reg), NO_JUMP, NO_JUMP), [], [], reg)
      ensures st.LimitExceeded? ==> TooLong()
    {
      BranchWfLabel(site, code, lasttarget, JumpSet(tl), JumpSet(fl));
      var final := GetLabel();
      ghost var code0 := code;
      :- PatchListAux(f, final, reg, pf, fl);
      ghost var code1 := code;
      FinishFirst(site, code0, t, tl, fl, reg, pf, pt, code1);
      :- PatchListAux(t, final, reg, pt, tl);
      FinishAll(site, nactvar, e, code0, tl, fl, reg, pf, pt, code1, code);
      st := Ok;
    }

    /** Boolean loads for the exits that have no value, and a jump around them. */
    method AddBools(t: int, f: int, reg: int, ghost site: Site, ghost e: Expr, ghost tl: seq<int>, ghost fl: seq<int>)
      returns (st: Status, pf: int, pt: int)
      requires Open(site, e, t, tl, f, fl, reg) && (tl != [] || fl != [])
      modifies this`code, this`lasttarget
      ensures st.Ok? ==> Open(site, e, t, tl, f, fl, reg) && ExitTargets(code, reg, pf, pt, JumpSet(tl), JumpSet(fl))
      ensures st.LimitExceeded? ==> TooLong()
    {
      EndsStraight(site, code, lasttarget, JumpSet(tl), JumpSet(fl), if tl != [] then tl[0] else fl[0]);
      ReadyAroundStep(site, e, code, lasttarget, JumpSet(tl), JumpSet(fl), reg);
      st, pf, pt := LoadBools(false, reg);
      if st.Ok? {
        assert code == old(code) + [OpJmp(2), OpLFalseSkip(reg), OpLoadTrue(reg)];
        ListKept(old(code), code, t, tl);
        ListKept(old(code), code, f, fl);
      }
    }

    /** exp2reg for a value that already is in `reg` when the code ends. */
    method CloseValue(v: ExpDesc, reg: int, ghost site: Site, ghost e: Expr, ghost tl: seq<int>, ghost fl: seq<int>)
      returns (st: Status)
      requires v.k == VNonReloc(reg) && InPlace(site, e, v, tl, fl, reg)
      modifies this`code, this`lasttarget
      ensures st.Ok? ==> InPlace(site, e, ExpDesc(VNonReloc(reg), NO_JUMP, NO_JUMP), [], [], reg)
      ensures st.LimitExceeded? ==> TooLong()
    {
      if v.t == v.f {
        NoJumps(site, code, v, tl, fl);
        return Ok;
      }
      ReadyRegStep(site, nactvar, e, code, lasttarget, JumpSet(tl), JumpSet(fl), reg);
      var pf, pt := NO_JUMP, NO_JUMP;
      var need := NeedValue(v.t, tl);
      if !need { need := NeedValue(v.f, fl); }
      if need {
        pf, pt :- AddBools(v.t, v.f, reg, site, e, tl, fl);
      }
      st := PatchExits(v.t, v.f, reg, pf, pt, site, e, tl, fl);
    }

    /** need_value on a list that ends with a comparison. */
    method NeedForTest(t: int, ghost tl: seq<int>) returns (need: bool)
      requires IsList(code, t, tl) && tl != [] && tl[|tl| - 1] == |code| - 1 > 0 && IsCmp(code[|code| - 2])
      ensures need
    {
      need := NeedValue(t, tl);
    }

    /** Boolean loads after a comparison, which falls through to the first of them when false. */
    method AddTestBools(t: int, f: int, reg: int, ghost site: Site, ghost e: Expr, ghost tl: seq<int>,
                        ghost fl: seq<int>)
      returns (st: Status, pf: int, pt: int)
      requires TestOpen(site, e, code, t, tl, f, fl, reg)
      modifies this`code, this`lasttarget
      ensures st.Ok? ==> Open(site, e, t, tl, f, fl, reg) && ExitTargets(code, reg, pf, pt, JumpSet(tl), JumpSet(fl))
      ensures st.LimitExceeded? ==> TooLong()
    {
      var _ := NeedForTest(t, tl);
      st, pf, pt := LoadBools(true, reg);
      if st.Ok? {
        assert code == old(code) + [OpLFalseSkip(reg), OpLoadTrue(reg)];
        ListKept(old(code), code, t, tl);
        ListKept(old(code), code, f, fl);
      }
    }

    /** luaK_concat of a comparison's own jump to its true list. */
    method JoinJump(v: ExpDesc, ghost reg: int, ghost site: Site, ghost e: Expr, ghost tl: seq<int>, ghost fl: seq<int>)
      returns (st: Status, t: int)
      requires v.k.VJmp? && InPlace(site, e, v, tl, fl, NO_JUMP)
      modifies this`code
      ensures st.Ok? ==> TestOpen(site, e, code, t, tl + [v.k.pc], v.f, fl, reg)
      ensures st.LimitExceeded? ==> TooLong()
    {
      CmpLists(code, code, v.k.pc, v.t, tl, v.f, fl);
      st, t := Concat(v.t, v.k.pc, tl, [v.k.pc]);
      if st.Ok? { JoinJumpStep(site, nactvar, e, old(code), lasttarget, v, tl, fl, code, t, reg); }
    }

    /** exp2reg for a comparison: its jump joins the true list, and falling through is false. */
    method CloseTest(v: ExpDesc, reg: int, ghost site: Site, ghost e: Expr, ghost tl: seq<int>, ghost fl: seq<int>)
      returns (st: Status)
      requires v.k.VJmp? && InPlace(site, e, v, tl, fl, NO_JUMP) && 0 <= reg < NO_REG
      modifies this`code, this`lasttarget
      ensures st.Ok? ==> InPlace(site, e, ExpDesc(VNonReloc(reg), NO_JUMP, NO_JUMP), [], [], reg)
      ensures st.LimitExceeded? ==> TooLong()
    {
      var t, pf, pt;
      ghost var tl' := tl + [v.k.pc];
      t :- JoinJump(v, reg, site, e, tl, fl);
      pf, pt :- AddTestBools(t, v.f, reg, site, e, tl', fl);
      st := PatchExits(t, v.f, reg, pf, pt, site, e, tl', fl);
    }

    /** exp2reg */
    method Exp2Reg(v: ExpDesc, reg: int, ghost site: Site, ghost e: Expr, ghost tl: seq<int>, ghost fl: seq<int>)
      returns (st: Status, v': ExpDesc)
      requires InPlace(site, e, v, tl, fl, NO_JUMP) && nactvar <= NO_REG && 0 <= reg < NO_REG
      modifies this`code, this`lasttarget
      ensures v' == ExpDesc(VNonReloc(reg), NO_JUMP, NO_JUMP)
      ensures st.Ok? ==> InPlace(site, e, v', [], [], reg)
      ensures st.LimitExceeded? ==> TooLong()
    {
      v' := Discharge2Reg(v, reg, site, e, tl, fl);
      if v'.k.VJmp? {
        st := CloseTest(v', reg, site, e, tl, fl);
      } else {
        st := CloseValue(v', reg, site, e, tl, fl);
      }
      v' := ExpDesc(VNonReloc(reg), NO_JUMP, NO_JUMP);
    }

    /** luaK_exp2nextreg, once the descriptor's own register is free again. */
    method IntoNextReg(v: ExpDesc, ghost site: Site, ghost e: Expr, ghost tl: seq<int>, ghost fl: seq<int>)
      returns (st: Status, v': ExpDesc)
      requires InPlace(site, e, v, tl, fl, NO_JUMP) && 0 <= nactvar <= site.base == freereg <= MAX_FSTACK
      modifies this`code, this`lasttarget, this`freereg
      ensures st.Ok? ==> v' == ExpDesc(VNonReloc(site.base), NO_JUMP, NO_JUMP) && Valued(site, e, v', [], [])
      ensures st.LimitExceeded? ==> Full(site.base + 1)
    {
      v' := v;
      :- ReserveRegs(1);
      st, v' := Exp2Reg(v, freereg - 1, site, e, tl, fl);
      if st.Ok? { FreshStep(site, e, code, v'.k, JumpSet([]), JumpSet([]), site.base); }
    }

    /** luaK_exp2nextreg */
    method Exp2NextReg(v: ExpDesc, ghost site: Site, ghost e: Expr, ghost tl: seq<int>, ghost fl: seq<int>)
      returns (st: Status, v': ExpDesc)
      requires Valued(site, e, v, tl, fl)
      modifies this`code, this`lasttarget, this`freereg
      ensures st.Ok? ==> v' == ExpDesc(VNonReloc(site.base), NO_JUMP, NO_JUMP) && Valued(site, e, v', [], [])
      ensures st.LimitExceeded? ==> Full(site.base + 1)
    {
      v' := DischargeVars(v, site, e, tl, fl);
      FreeExp(v');
      st, v' := IntoNextReg(v', site, e, tl, fl);
    }

    /** luaK_exp2anyreg */
    method Exp2AnyReg(v: ExpDesc, ghost site: Site, ghost e: Expr, ghost tl: seq<int>, ghost fl: seq<int>)
      returns (st: Status, v': ExpDesc)
      requires Valued(site, e, v, tl, fl)
      modifies this`code, this`lasttarget, this`freereg
      ensures st.Ok? ==> v'.k.VNonReloc? && v' == ExpDesc(v'.k, NO_JUMP, NO_JUMP) && Valued(site, e, v', [], [])
      ensures st.LimitExceeded? ==> Full(site.base + 1)
    {
      v' := DischargeVars(v, site, e, tl, fl);
      if v'.k.VNonReloc? {
        if v'.t == v'.f {
          NoJumps(site, code, v', tl, fl);
          return Ok, v';
        }
        if v'.k.r >= nactvar {
          st, v' := Exp2Reg(v', v'.k.r, site, e, tl, fl);
          if st.Ok? { FreshStep(site, e, code, v'.k, JumpSet([]), JumpSet([]), site.base); }
          return;
        }
      }
      st, v' := Exp2NextReg(v', site, e, tl, fl);
    }

    // ---------------------------------------------------------------- tests

    /** A test has been emitted, and only the registers below the base are in use. */
    ghost predicate Forked(site: Site, e: Expr, keep: int, kl: seq<int>, drop: int, dl: seq<int>, jl: seq<int>,
                           cond: bool)
      reads this
    {
      Split(site, e, code, lasttarget, keep, kl, drop, dl, jl, cond)
          && 0 <= nactvar <= freereg == site.base <= MAX_FSTACK
    }

    /** jumponcond on `not x`: removelastinstruction, and a test with the opposite sense. */
    method JumpOnNot(v: ExpDesc, cond: bool, ghost site: Site, ghost e: Expr, ghost tl: seq<int>, ghost fl: seq<int>)
      returns (pc: int)
      requires Valued(site, e, v, tl, fl) && v.k.VReloc? && code[v.k.pc].OpNot?
      modifies this`code
      ensures Forked(site, e, Pick(cond, v.t, v.f), Pick(cond, tl, fl), Pick(cond, v.f, v.t), Pick(cond, fl, tl), [pc],
                     cond)
    {
      pc := TestNot(v, cond, site, e, tl, fl);
    }

    method TestNot(v: ExpDesc, cond: bool, ghost site: Site, ghost e: Expr, ghost tl: seq<int>, ghost fl: seq<int>)
      returns (pc: int)
      requires InPlace(site, e, v, tl, fl, NO_JUMP) && v.k.VReloc? && code[v.k.pc].OpNot?
      modifies this`code
      ensures Split(site, e, code, lasttarget, Pick(cond, v.t, v.f), Pick(cond, tl, fl), Pick(cond, v.f, v.t),
                    Pick(cond, fl, tl), [pc], cond)
    {
      assert v.k.pc == |code| - 1;
      var last := RemoveLastInstruction();
      ghost var code0 := code;
      assert old(code) == code0 + [old(code)[v.k.pc]];
      pc := CondJump(OpTest(last.b, !cond));
      NotSplitAt(site, nactvar, e, old(code), lasttarget, v, tl, fl, cond, code0, code);
    }

    /** jumponcond on a value in a register. */
    method JumpOnReg(v: ExpDesc, cond: bool, ghost site: Site, ghost e: Expr, ghost tl: seq<int>, ghost fl: seq<int>)
      returns (pc: int)
      requires Valued(site, e, v, tl, fl) && v.k.VNonReloc?
      modifies this`code, this`freereg
      ensures Forked(site, e, Pick(cond, v.t, v.f), Pick(cond, tl, fl), Pick(cond, v.f, v.t), Pick(cond, fl, tl), [pc],
                     cond)
    {
      FreeExp(v);
      pc := TestReg(v, cond, site, e, tl, fl);
    }

    method TestReg(v: ExpDesc, cond: bool, ghost site: Site, ghost e: Expr, ghost tl: seq<int>, ghost fl: seq<int>)
      returns (pc: int)
      requires InPlace(site, e, v, tl, fl, NO_JUMP) && v.k.VNonReloc?
      modifies this`code
      ensures Split(site, e, code, lasttarget, Pick(cond, v.t, v.f), Pick(cond, tl, fl), Pick(cond, v.f, v.t),
                    Pick(cond, fl, tl), [pc], cond)
    {
      RegSplit(site, nactvar, e, code, lasttarget, v, tl, fl, cond,
               code + [OpTestSet(NO_REG, v.k.r, cond), OpJmp(NO_JUMP)]);
      pc := CondJump(OpTestSet(NO_REG, v.k.r, cond));
    }

    /** jumponcond */
    method JumpOnCond(v: ExpDesc, cond: bool, ghost site: Site, ghost e: Expr, ghost tl: seq<int>, ghost fl: seq<int>)
      returns (st: Status, pc: int)
      requires Valued(site, e, v, tl, fl) && !v.k.VJmp?
      modifies this`code, this`freereg
      ensures st.Ok? ==> Forked(site, e, Pick(cond, v.t, v.f), Pick(cond, tl, fl), Pick(cond, v.f, v.t),
                                Pick(cond, fl, tl), [pc], cond)
      ensures st.LimitExceeded? ==> Full(site.base + 1)
    {
      st, pc := Ok, NO_JUMP;
      if v.k.VReloc? && code[v.k.pc].OpNot? {
        pc := JumpOnNot(v, cond, site, e, tl, fl);
        return;
      }
      var v';
      v' :- Discharge2AnyReg(v, site, e, tl, fl);
      pc := JumpOnReg(v', cond, site, e, tl, fl);
    }

    /** After luaK_goiftrue or luaK_goiffalse: code goes on when the value's truth is not `cond`, and
        leaves through the list otherwise. */
    ghost predicate Tested(site: Site, e: Expr, head: int, l: seq<int>, cond: bool)
      reads this
    {
      && lasttarget == |code| && BranchWf(site, code, lasttarget, JumpSet(l), {})
         && Branches(site, e, code, JumpSet(l), {}, cond)
      && IsList(code, head, l)
      && 0 <= nactvar <= freereg == site.base <= MAX_FSTACK
    }

    /** The common end of luaK_goiftrue and luaK_goiffalse: the new jump joins one list, the other
        list goes through to here. */
    method Gate(keep: int, drop: int, pc: int, ghost site: Site, ghost e: Expr,
                ghost kl: seq<int>, ghost dl: seq<int>, ghost jl: seq<int>, ghost cond: bool)
      returns (st: Status, head: int)
      requires Forked(site, e, keep, kl, drop, dl, jl, cond) && pc == if jl == [] then NO_JUMP else jl[0]
      modifies this`code, this`lasttarget
      ensures st.Ok? ==> Tested(site, e, head, kl + jl, cond)
      ensures st.LimitExceeded? ==> TooLong()
    {
      ghost var last := lasttarget;
      LastIn(kl);
      st, head := Concat(keep, pc, kl, jl);
      if st.LimitExceeded? { return; }
      ghost var code1 := code;
      ListUnder(site, old(code), code1, last, drop, kl, jl, dl);
      var here := GetLabel();  // luaK_patchtohere
      :- PatchListAux(drop, here, NO_REG, here, dl);
      GateLists(site, e, old(code), last, kl, jl, dl, cond, code1, head, code);
    }

    /** negatecondition */
    method TestNegated(v: ExpDesc, ghost site: Site, ghost e: Expr, ghost tl: seq<int>, ghost fl: seq<int>)
      requires InPlace(site, e, v, tl, fl, NO_JUMP) && v.k.VJmp?
      modifies this`code
      ensures Split(site, e, code, lasttarget, v.f, fl, v.t, tl, [v.k.pc], false)
    {
      NegatedSplit(site, nactvar, e, code, lasttarget, v, tl, fl);
      code := code[v.k.pc - 1 := Negated(code[v.k.pc - 1])];
    }

    /** luaK_goiftrue, up to the jump. */
    method JumpIfFalse(v: ExpDesc, ghost site: Site, ghost e: Expr, ghost tl: seq<int>, ghost fl: seq<int>)
      returns (st: Status, pc: int, ghost l: seq<int>)
      requires Valued(site, e, v, tl, fl) && !v.k.VLocal? && !v.k.VUpval?
      modifies this`code, this`freereg
      ensures st.Ok? ==> Forked(site, e, v.f, fl, v.t, tl, l, false) && pc == if l == [] then NO_JUMP else l[0]
      ensures st.LimitExceeded? ==> Full(site.base + 1)
    {
      st, pc, l := Ok, NO_JUMP, [];
      if v.k.VJmp? {
        TestNegated(v, site, e, tl, fl);
        pc, l := v.k.pc, [v.k.pc];
      } else if v.k.VKInt? || v.k.VKStr? || v.k.VTrue? {
        ConstSplit(site, nactvar, e, code, lasttarget, v, tl, fl, false);
      } else {
        pc :- JumpOnCond(v, false, site, e, tl, fl);
        l := [pc];
      }
    }

    /** luaK_goiftrue */
    method GoIfTrue(v: ExpDesc, ghost site: Site, ghost e: Expr, ghost tl: seq<int>, ghost fl: seq<int>)
      returns (st: Status, f: int, ghost l: seq<int>)
      requires Valued(site, e, v, tl, fl)
      modifies this`code, this`lasttarget, this`freereg
      ensures st.Ok? ==> Tested(site, e, f, l, false)
      ensures st.LimitExceeded? ==> Full(site.base + 1)
    {
      f, l := NO_JUMP, [];
      var v' := DischargeVars(v, site, e, tl, fl);
      var pc;
      pc, l :- JumpIfFalse(v', site, e, tl, fl);
      st, f := Gate(v'.f, v'.t, pc, site, e, fl, tl, l, false);
      l := fl + l;
    }

    /** luaK_goiffalse */
    method GoIfFalse(v: ExpDesc, ghost site: Site, ghost e: Expr, ghost tl: seq<int>, ghost fl: seq<int>)
      returns (st: Status, t: int, ghost l: seq<int>)
      requires Valued(site, e, v, tl, fl)
      modifies this`code, this`lasttarget, this`freereg
      ensures st.Ok? ==> Tested(site, e, t, l, true)
      ensures st.LimitExceeded? ==> Full(site.base + 1)
    {
      t, l := NO_JUMP, [];
      var pc := NO_JUMP;
      var v' := DischargeVars(v, site, e, tl, fl);
      if v'.k.VJmp? {
        CmpSplit(site, nactvar, e, code, lasttarget, v', tl, fl);
        pc, l := v'.k.pc, [v'.k.pc];
      } else if v'.k.VNil? || v'.k.VFalse? {
        ConstSplit(site, nactvar, e, code, lasttarget, v', tl, fl, true);
      } else {
        pc :- JumpOnCond(v', true, site, e, tl, fl);
        l := [pc];
      }
      st, t := Gate(v'.t, v'.f, pc, site, e, tl, fl, l, true);
      l := tl + l;
    }

    // ---------------------------------------------------------------- not

    /** codenot on a value in a register. */
    method FlipReg(v: ExpDesc, ghost site: Site, ghost e: Expr, ghost tl: seq<int>, ghost fl: seq<int>)
      returns (v': ExpDesc)
      requires Valued(site, e, v, tl, fl) && v.k.VNonReloc?
      modifies this`code, this`freereg
      ensures Flipped(site, nactvar, e, code, lasttarget, v', tl, fl) && v'.t == v.t && v'.f == v.f
      ensures Stacked(site, v'.k) && !v'.k.VNonReloc?
    {
      FreeExp(v);
      ghost var before := code;
      var pc := Emit(OpNot(0, v.k.r));
      FlipRegStep(site, nactvar, e, before, lasttarget, v, tl, fl, code);
      v' := v.(k := VReloc(pc));
    }

    /** The switch of codenot. */
    method FlipValue(v: ExpDesc, ghost site: Site, ghost e: Expr, ghost tl: seq<int>, ghost fl: seq<int>)
      returns (st: Status, v': ExpDesc)
      requires Valued(site, e, v, tl, fl) && !v.k.VLocal? && !v.k.VUpval?
      modifies this`code, this`freereg
      ensures st.Ok? ==> Flipped(site, nactvar, e, code, lasttarget, v', tl, fl) && v'.t == v.t && v'.f == v.f
      ensures st.Ok? ==> Stacked(site, v'.k) && !v'.k.VNonReloc?
      ensures st.LimitExceeded? ==> Full(site.base + 1)
    {
      st, v' := Ok, v;
      if v.k.VJmp? {
        code := code[v.k.pc - 1 := Negated(code[v.k.pc - 1])];  // negatecondition
        FlipCmpStep(site, nactvar, e, old(code), lasttarget, v, tl, fl, code);
      } else if v.k.VReloc? || v.k.VNonReloc? {
        v' :- Discharge2AnyReg(v, site, e, tl, fl);
        v' := FlipReg(v', site, e, tl, fl);
      } else {
        v' := v.(k := if v.k.VNil? || v.k.VFalse? then VTrue else VFalse);
        NotConstStep(site, nactvar, e, code, lasttarget, v.k, v'.k, JumpSet(tl), JumpSet(fl));
      }
    }

    /** The end of codenot. */
    method SwapLists(v: ExpDesc, ghost site: Site, ghost e: Expr, ghost tl: seq<int>, ghost fl: seq<int>)
      returns (v': ExpDesc)
      requires Flipped(site, nactvar, e, code, lasttarget, v, tl, fl)
      modifies this`code
      ensures v' == ExpDesc(v.k, v.f, v.t) && InPlace(site, ENot(e), v', fl, tl, NO_JUMP)
    {
      v' := ExpDesc(v.k, v.f, v.t);
      RemoveValues(v'.f, tl);
      ghost var code1 := code;
      DroppedLists(old(code), JumpSet(tl), code1, v.f, fl);
      RemoveValues(v'.t, fl);
      SwapStep(site, nactvar, e, old(code), lasttarget, v, tl, fl, code1, code);
    }

    /** luaK_prefix for `not`, with codenot */
    method CodeNot(v: ExpDesc, ghost site: Site, ghost e: Expr, ghost tl: seq<int>, ghost fl: seq<int>)
      returns (st: Status, v': ExpDesc)
      requires Valued(site, e, v, tl, fl)
      modifies this`code, this`freereg
      ensures st.Ok? ==> Valued(site, ENot(e), v', fl, tl)
      ensures st.LimitExceeded? ==> Full(site.base + 1)
    {
      v' := DischargeVars(v, site, e, tl, fl);
      st, v' := FlipValue(v', site, e, tl, fl);
      if st.Ok? { v' := SwapLists(v', site, e, tl, fl); }
    }

    // ---------------------------------------------------------------- and, or

    /** What luaK_goiftrue and luaK_goiffalse left behind when the code was `before`. */
    ghost predicate Pending1(site: Site, a: Expr, before: Code, head: int, l: seq<int>, cond: bool) {
      && BranchWf(site, before, |before|, JumpSet(l), {}) && Branches(site, a, before, JumpSet(l), {}, cond)
      && IsList(before, head, l)
    }

    /** luaK_posfix for `and`: the false exits of both operands become one list. */
    method PosfixAnd(f: int, v: ExpDesc, ghost site: Site, ghost a: Expr, ghost b: Expr, ghost before: Code,
                     ghost l: seq<int>, ghost tl: seq<int>, ghost fl: seq<int>) returns (st: Status, v': ExpDesc)
      requires Pending1(site, a, before, f, l, false) && Scoped(b, nactvar)
      requires Valued(Inner(site, before, l), b, v, tl, fl)
      modifies this`code
      ensures st.Ok? ==> Valued(site, EAnd(a, b), v', tl, fl + l)
      ensures st.LimitExceeded? ==> TooLong()
    {
      ghost var mid := Inner(site, before, l);
      v' := DischargeVars(v, mid, b, tl, fl);
      OuterList(mid, code, f, l, fl);
      ghost var code2 := code;
      var head;
      head :- Concat(v'.f, f, fl, l);
      AndStep(site, nactvar, a, b, before, l, code2, lasttarget, v'.k, v'.t, tl, fl, code);
      st, v' := Ok, v'.(f := head);
    }

    /** luaK_posfix for `or`: the true exits of both operands become one list. */
    method PosfixOr(t: int, v: ExpDesc, ghost site: Site, ghost a: Expr, ghost b: Expr, ghost before: Code,
                    ghost l: seq<int>, ghost tl: seq<int>, ghost fl: seq<int>) returns (st: Status, v': ExpDesc)
      requires Pending1(site, a, before, t, l, true) && Scoped(b, nactvar)
      requires Valued(Inner(site, before, l), b, v, tl, fl)
      modifies this`code
      ensures st.Ok? ==> Valued(site, EOr(a, b), v', tl + l, fl)
      ensures st.LimitExceeded? ==> TooLong()
    {
      ghost var mid := Inner(site, before, l);
      v' := DischargeVars(v, mid, b, tl, fl);
      OuterList(mid, code, t, l, tl);
      ghost var code2 := code;
      var head;
      head :- Concat(v'.t, t, tl, l);
      OrStep(site, nactvar, a, b, before, l, code2, lasttarget, v'.k, v'.f, tl, fl, code);
      st, v' := Ok, v'.(t := head);
    }

    // ---------------------------------------------------------------- order comparisons

    /** luaK_infix for an order comparison: a small constant stays as it is. */
    method InfixOrder(v: ExpDesc, ghost site: Site, ghost a: Expr, ghost tl: seq<int>, ghost fl: seq<int>)
      returns (st: Status, v': ExpDesc)
      requires Valued(site, a, v, tl, fl)
      modifies this`code, this`lasttarget, this`freereg
      ensures st.Ok? ==> FirstReady(site, nactvar, a, code, v'.k, freereg) && v' == ExpDesc(v'.k, NO_JUMP, NO_JUMP)
      ensures st.Ok? ==> Valued(site, a, v', [], []) && (v'.k.VNonReloc? || IsSCNumber(v'))
      ensures st.LimitExceeded? ==> Full(site.base + 1)
    {
      st := Ok;
      v' := DischargeVars(v, site, a, tl, fl);
      if IsSCNumber(v') {
        NoJumps(site, code, v', tl, fl);
      } else {
        v' :- Exp2AnyReg(v', site, a, tl, fl);
      }
      JumpSetOne(0);
      FirstStep(site, nactvar, a, code, lasttarget, v'.k, freereg);
    }

    predicate InTemp(k: Kind) {
      k.VNonReloc? && k.r >= nactvar
    }

    /** The temporaries of two operands are the registers on top of the site's base. */
    ghost predicate TwoStacked(site: Site, ka: Kind, kb: Kind)
      reads this
    {
      && 0 <= nactvar <= site.base <= freereg <= MAX_FSTACK
      && freereg == site.base + (if InTemp(ka) then 1 else 0) + (if InTemp(kb) then 1 else 0)
      && (InTemp(ka) ==> ka.r == site.base) && (InTemp(kb) ==> kb.r == freereg - 1)
    }

    /** freeexps: the higher register is freed first. */
    method FreeExps(e1: ExpDesc, e2: ExpDesc, ghost site: Site)
      requires TwoStacked(site, e1.k, e2.k) || TwoStacked(site, e2.k, e1.k)
      modifies this`freereg
      ensures freereg == site.base
    {
      var r1 := if e1.k.VNonReloc? then e1.k.r else -1;
      var r2 := if e2.k.VNonReloc? then e2.k.r else -1;
      if r1 > r2 {
        FreeReg(r1);
        FreeReg(r2);
      } else {
        FreeReg(r2);
        FreeReg(r1);
      }
    }

    /** luaK_exp2anyreg on a first operand that is still a constant, behind a second one. */
    method LoadFirst(v: ExpDesc, ghost kb: Kind, ghost site: Site, ghost a: Expr, ghost b: Expr)
      returns (st: Status, v': ExpDesc)
      requires IsSCNumber(v) && v.t == NO_JUMP && kb.VKInt? && TwoStacked(site, v.k, kb)
      requires BothReady(site, a, v.k, b, kb, code, lasttarget)
      modifies this`code, this`lasttarget, this`freereg
      ensures st.Ok? ==>
                v'.k.VNonReloc? && BothReady(site, a, v'.k, b, kb, code, lasttarget) && TwoStacked(site, v'.k, kb)
      ensures st.LimitExceeded? ==> Full(site.base + 1)
    {
      ghost var mid := Site(site.lo, site.out, code, site.base);
      JumpSetOne(0);
      assert site.out + {} + {} == site.out;
      LeafStep(mid, nactvar, lasttarget, EInt(v.k.i), v.k);
      ghost var last := lasttarget;
      v' :- Exp2AnyReg(v, mid, EInt(v.k.i), [], []);
      LoadFirstStep(site, nactvar, a, v.k.i, b, kb, old(code), last, v'.k.r, code, lasttarget);
      st := Ok;
    }

    /** codeorder, first part: luaK_exp2anyreg on each operand that is not an immediate one, which
        does nothing to a first operand that is in a register already. */
    method OrderOperands(greater: bool, v1: ExpDesc, v2: ExpDesc, ghost site: Site, ghost a: Expr, ghost b: Expr,
                         ghost before: Code, ghost base: int, ghost tl: seq<int>, ghost fl: seq<int>)
      returns (st: Status, v1': ExpDesc, v2': ExpDesc)
      requires FirstReady(site, nactvar, a, before, v1.k, base) && v1 == ExpDesc(v1.k, NO_JUMP, NO_JUMP)
               && (v1.k.VNonReloc? || IsSCNumber(v1))
      requires Valued(Site(site.lo, site.out, before, base), b, v2, tl, fl) && Scoped(b, nactvar)
               && nactvar <= site.base
      modifies this`code, this`lasttarget, this`freereg
      ensures st.Ok? ==> BothReady(site, a, v1'.k, b, v2'.k, code, lasttarget) && TwoStacked(site, v1'.k, v2'.k)
      ensures st.Ok? ==> IsOperand(v1'.k) && IsOperand(v2'.k) && (v1'.k.VNonReloc? || v2'.k.VNonReloc?)
      ensures st.LimitExceeded? ==> Full(base + 1)
    {
      ghost var mid := Site(site.lo, site.out, before, base);
      st, v1', v2' := Ok, v1, v2;
      var immediate := IsSCNumber(v2) && !(greater && IsSCNumber(v1));
      if immediate {
        NoJumps(mid, code, v2, tl, fl);
      } else {
        v2' :- Exp2AnyReg(v2, mid, b, tl, fl);
      }
      JumpSetOne(0);
      BothStep(site, nactvar, a, v1.k, b, v2'.k, before, base, code, lasttarget);
      if immediate && v1.k.VKInt? {
        st, v1' := LoadFirst(v1, v2'.k, site, a, b);
      }
    }

    /** codeorder, second part: the instruction for `e1 op e2`, operands swapped before for > and >=. */
    static function OrderInstr(op: CmpOp, e1: ExpDesc, e2: ExpDesc): (i: Instr)
      requires IsOperand(e1.k) && IsOperand(e2.k) && (e1.k.VNonReloc? || e2.k.VNonReloc?)
      ensures Compares(i, op, e1.k, e2.k) && Fits(i)
    {
      if e2.k.VKInt? then OpCmpI(op, false, e1.k.r, e2.k.i, true)
      else if e1.k.VKInt? then OpCmpI(op, true, e2.k.r, e1.k.i, true)
      else OpCmp(op, e1.k.r, e2.k.r, true)
    }

    method EmitOrder(i: Instr, ghost site: Site, ghost e: Expr) returns (v: ExpDesc)
      requires var code', k := code + [i, OpJmp(NO_JUMP)], VJmp(|code| + 1);
               Wf(site, nactvar, code', lasttarget, k, {}, {}) && Denotes(site, e, code', k, {}, {}, NO_JUMP)
      requires 0 <= nactvar <= site.base == freereg <= MAX_FSTACK
      modifies this`code
      ensures Valued(site, e, v, [], [])
    {
      var pc := CondJump(i);
      v := ExpDesc(VJmp(pc), NO_JUMP, NO_JUMP);
      JumpSetOne(0);
    }

    /** codeorder, third part: the operands' registers are free again, and condjump. */
    method OrderJump(op: CmpOp, greater: bool, v1: ExpDesc, v2: ExpDesc, ghost site: Site, ghost a: Expr, ghost b: Expr)
      returns (v: ExpDesc)
      requires BothReady(site, a, v1.k, b, v2.k, code, lasttarget) && TwoStacked(site, v1.k, v2.k)
      requires IsOperand(v1.k) && IsOperand(v2.k) && (v1.k.VNonReloc? || v2.k.VNonReloc?)
      modifies this`code, this`freereg
      ensures Valued(site, if greater then EGreater(op, a, b) else ELess(op, a, b), v, [], [])
    {
      ghost var e := if greater then EGreater(op, a, b) else ELess(op, a, b);
      FreeExps(v1, v2, site);
      var i := if greater then OrderInstr(op, v2, v1) else OrderInstr(op, v1, v2);
      OrderStep(site, nactvar, e, op, a, v1.k, b, v2.k, code, lasttarget, i);
      v := EmitOrder(i, site, e);
    }

    /** luaK_posfix for an order comparison */
    method PosfixOrder(op: CmpOp, greater: bool, v1: ExpDesc, v2: ExpDesc, ghost site: Site, ghost a: Expr,
                       ghost b: Expr, ghost before: Code,
                       ghost base: int, ghost tl: seq<int>, ghost fl: seq<int>) returns (st: Status, v: ExpDesc)
      requires FirstReady(site, nactvar, a, before, v1.k, base) && v1 == ExpDesc(v1.k, NO_JUMP, NO_JUMP)
               && (v1.k.VNonReloc? || IsSCNumber(v1))
      requires Valued(Site(site.lo, site.out, before, base), b, v2, tl, fl) && Scoped(b, nactvar)
               && nactvar <= site.base
      modifies this`code, this`lasttarget, this`freereg
      ensures st.Ok? ==> Valued(site, if greater then EGreater(op, a, b) else ELess(op, a, b), v, [], [])
      ensures st.LimitExceeded? ==> Full(base + 1)
    {
      v := DischargeVars(v2, Site(site.lo, site.out, before, base), b, tl, fl);
      var v1', v2';
      v1', v2' :- OrderOperands(greater, v1, v, site, a, b, before, base, tl, fl);
      st := Ok;
      v := OrderJump(op, greater, v1', v2', site, a, b);
    }

    // ---------------------------------------------------------------- expressions

    ghost predicate At(site: Site)
      reads this
    {
      site.code == code && site.base == freereg && Starts(site, lasttarget) && 0 <= nactvar <= freereg <= MAX_FSTACK
    }

    /** simpleexp and singlevar */
    method CompileLeaf(e: Expr, ghost site: Site) returns (v: ExpDesc)
      requires At(site) && Scoped(e, nactvar) && IsLeaf(e)
      ensures Valued(site, e, v, [], [])
    {
      v := ExpDesc(LeafKind(e), NO_JUMP, NO_JUMP);
      LeafStep(site, nactvar, lasttarget, e, v.k);
      JumpSetOne(0);
    }

    /** subexpr on `a and b` */
    method CompileAnd(e: Expr, ghost site: Site)
      returns (st: Status, v: ExpDesc, ghost tl: seq<int>, ghost fl: seq<int>)
      requires e.EAnd? && At(site) && Scoped(e, nactvar)
      modifies this`code, this`lasttarget, this`freereg
      ensures st.Ok? ==> Valued(site, e, v, tl, fl)
      ensures st.LimitExceeded? ==> Full(site.base + Need(e))
      decreases e, 0
    {
      v, tl, fl := ExpDesc(VNil, NO_JUMP, NO_JUMP), [], [];
      NeedOperands(e);
      var f;
      ghost var l;
      v, tl, fl :- Compile(e.a, site);
      v := DischargeVars(v, site, e.a, tl, fl);  // luaK_infix
      f, l :- GoIfTrue(v, site, e.a, tl, fl);
      ghost var before := code;
      InnerStarts(site, before, l);
      v, tl, fl :- Compile(e.b, Inner(site, before, l));
      st, v := PosfixAnd(f, v, site, e.a, e.b, before, l, tl, fl);
      fl := fl + l;
    }

    /** subexpr on `a or b` */
    method CompileOr(e: Expr, ghost site: Site) returns (st: Status, v: ExpDesc, ghost tl: seq<int>, ghost fl: seq<int>)
      requires e.EOr? && At(site) && Scoped(e, nactvar)
      modifies this`code, this`lasttarget, this`freereg
      ensures st.Ok? ==> Valued(site, e, v, tl, fl)
      ensures st.LimitExceeded? ==> Full(site.base + Need(e))
      decreases e, 0
    {
      v, tl, fl := ExpDesc(VNil, NO_JUMP, NO_JUMP), [], [];
      NeedOperands(e);
      var t;
      ghost var l;
      v, tl, fl :- Compile(e.a, site);
      v := DischargeVars(v, site, e.a, tl, fl);  // luaK_infix
      t, l :- GoIfFalse(v, site, e.a, tl, fl);
      ghost var before := code;
      InnerStarts(site, before, l);
      v, tl, fl :- Compile(e.b, Inner(site, before, l));
      st, v := PosfixOr(t, v, site, e.a, e.b, before, l, tl, fl);
      tl := tl + l;
    }

    /** subexpr on `a < b`, `a <= b`, `a > b`, `a >= b` */
    method CompileOrder(e: Expr, ghost site: Site) returns (st: Status, v: ExpDesc)
      requires (e.ELess? || e.EGreater?) && At(site) && Scoped(e, nactvar)
      modifies this`code, this`lasttarget, this`freereg
      ensures st.Ok? ==> Valued(site, e, v, [], [])
      ensures st.LimitExceeded? ==> Full(site.base + Need(e))
      decreases e, 0
    {
      v := ExpDesc(VNil, NO_JUMP, NO_JUMP);
      ghost var tl, fl := [], [];
      NeedOperands(e);
      var v1, v2;
      v1, tl, fl :- Compile(e.a, site);
      v1 :- InfixOrder(v1, site, e.a, tl, fl);
      ghost var before, base := code, freereg;
      JumpSetOne(0);
      SecondStarts(site, nactvar, before, lasttarget, v1.k, base);
      v2, tl, fl :- Compile(e.b, Site(site.lo, site.out, before, base));
      st, v := PosfixOrder(e.op, e.EGreater?, v1, v2, site, e.a, e.b, before, base, tl, fl);
    }

    /** subexpr: code for `e` whose descriptor has the value of `e`, for every world and every
        initial register file; or a limit of the generator was exceeded. */
    method Compile(e: Expr, ghost site: Site) returns (st: Status, v: ExpDesc, ghost tl: seq<int>, ghost fl: seq<int>)
      requires At(site) && Scoped(e, nactvar)
      modifies this`code, this`lasttarget, this`freereg
      ensures st.Ok? ==> Valued(site, e, v, tl, fl)
      ensures st.LimitExceeded? ==> Full(site.base + Need(e))
      decreases e, 1
    {
      st, v, tl, fl := Ok, ExpDesc(VNil, NO_JUMP, NO_JUMP), [], [];
      if e.EParen? {
        v, tl, fl :- Compile(e.e, site);
        v := DischargeVars(v, site, e.e, tl, fl);
        ParenStep(site, e.e, code, v.k, JumpSet(tl), JumpSet(fl));
      } else if e.ENot? {
        v, tl, fl :- Compile(e.e, site);
        st, v := CodeNot(v, site, e.e, tl, fl);
        tl, fl := fl, tl;
      } else if e.EAnd? {
        st, v, tl, fl := CompileAnd(e, site);
      } else if e.EOr? {
        st, v, tl, fl := CompileOr(e, site);
      } else if e.ELess? || e.EGreater? {
        st, v := CompileOrder(e, site);
      } else {
        v := CompileLeaf(e, site);
      }
    }

    // ---------------------------------------------------------------- statements

    /** luaK_storevar to a local variable */
    method StoreLocal(v: ExpDesc, r: int, ghost site: Site, ghost e: Expr, ghost tl: seq<int>, ghost fl: seq<int>)
      returns (st: Status)
      requires Valued(site, e, v, tl, fl) && 0 <= r < nactvar
      modifies this`code, this`lasttarget, this`freereg
      ensures st.Ok? ==> InPlace(site, e, ExpDesc(VNonReloc(r), NO_JUMP, NO_JUMP), [], [], r)
      ensures st.LimitExceeded? ==> TooLong()
    {
      FreeExp(v);
      var v';
      st, v' := Exp2Reg(v, r, site, e, tl, fl);
    }

    /** One assignment, behind the code of the statements `b`. */
    method CompileAssign(a: Assign, ghost b: seq<Assign>) returns (st: Status)
      requires 0 <= a.r < nactvar == freereg <= MAX_FSTACK && Scoped(a.e, nactvar)
      requires Starts(Whole(code, nactvar), lasttarget) && Executes(b, code, nactvar)
      modifies this`code, this`lasttarget, this`freereg
      ensures st.Ok? ==>
                freereg == nactvar && Starts(Whole(code, nactvar), lasttarget) && Executes(b + [a], code, nactvar)
      ensures st.LimitExceeded? ==> TooLong() || nactvar + Need(a.e) > MAX_FSTACK
    {
      ghost var before := code;
      ghost var tl, fl;
      var v;
      v, tl, fl :- Compile(a.e, Whole(before, nactvar));
      :- StoreLocal(v, a.r, Whole(before, nactvar), a.e, tl, fl);
      JumpSetOne(0);
      AssignStep(b, before, nactvar, a, code, lasttarget);
      freereg := nactvar;  // luaY_nvarstack
      st := Ok;
    }

    /** statlist on assignments to local variables.  If no limit is exceeded, running the code from
        its first instruction does what the statements do, whatever the world and the initial
        registers are. */
    method CompileBlock(b: seq<Assign>) returns (st: Status)
      requires ScopedBlock(b, nactvar) && code == [] && lasttarget == 0 && 0 <= nactvar == freereg <= MAX_FSTACK
      modifies this`code, this`lasttarget, this`freereg
      ensures st.Ok? ==> Executes(b, code, nactvar) && Starts(Whole(code, nactvar), lasttarget)
      ensures st.LimitExceeded? ==> TooLong() || exists i :: 0 <= i < |b| && nactvar + Need(b[i].e) > MAX_FSTACK
    {
      EmptyBody(nactvar);
      var i := 0;
      while i < |b|
        invariant 0 <= i <= |b| && 0 <= nactvar == freereg <= MAX_FSTACK
        invariant Starts(Whole(code, nactvar), lasttarget) && Executes(b[..i], code, nactvar)
      {
        :- CompileAssign(b[i], b[..i]);
        assert b[..i + 1] == b[..i] + [b[i]];
        i := i + 1;
      }
      assert b[..i] == b;
      st := Ok;
    }
  }

  /** The two boolean loads, with the jump around them patched. */
  lemma {:induction false} BoolsText(code: Code, isTest: bool, reg: int, before: Code, code': Code)
    requires |code| > 0 ==> !IsTest(code[|code| - 1])
    requires before == code + (if isTest then [] else [OpJmp(NO_JUMP)]) + [OpLFalseSkip(reg), OpLoadTrue(reg)]
    requires Patched(before, JumpSet(if isTest then [] else [|code|]), |before|, NO_REG, |before|, code')
    ensures code' == code + (if isTest then [] else [OpJmp(2)]) + [OpLFalseSkip(reg), OpLoadTrue(reg)]
  {
    forall pc | 0 <= pc < |before|
      ensures code'[pc] == (code + (if isTest then [] else [OpJmp(2)]) + [OpLFalseSkip(reg), OpLoadTrue(reg)])[pc]
    {
      assert code'[pc] == PatchedAt(before, JumpSet(if isTest then [] else [|code|]), |before|, NO_REG, |before|, pc);
    }
  }

  /** A jump that is not patched yet, and its test, are unchanged. */
  lemma {:induction false} PatchedRest(code: Code, done: set<int>, j: int, vtarget: int, reg: int, dtarget: int,
                                       code': Code)
    requires 0 <= j < |code| && code[j].OpJmp? && j !in done
    requires forall d | d in done && 0 <= d < |code| :: code[d].OpJmp?
    requires Patched(code, done, vtarget, reg, dtarget, code')
    ensures code'[j] == code[j]
    ensures j >= 1 ==> code'[j - 1].OpTestSet? == code[j - 1].OpTestSet?
    ensures j >= 1 && code[j - 1].OpTestSet? ==> code'[j - 1] == code[j - 1]
  {
    assert code'[j] == PatchedAt(code, done, vtarget, reg, dtarget, j);
    if j >= 1 { assert code'[j - 1] == PatchedAt(code, done, vtarget, reg, dtarget, j - 1); }
  }

  lemma {:induction false} PatchedNext(code: Code, done: set<int>, j: int, vtarget: int, reg: int, dtarget: int,
                                       code1: Code, code2: Code)
    requires 0 <= j < |code| && code[j].OpJmp? && j !in done
    requires forall d | d in done && 0 <= d < |code| :: code[d].OpJmp?
    requires Patched(code, done, vtarget, reg, dtarget, code1)
    requires if j >= 1 && code1[j - 1].OpTestSet?
             then code2 == code1[j - 1 := PatchTest(code1[j - 1], reg)][j := OpJmp(vtarget - (j + 1))]
             else code2 == code1[j := OpJmp(dtarget - (j + 1))]
    ensures Patched(code, done + {j}, vtarget, reg, dtarget, code2)
  {
    PatchedRest(code, done, j, vtarget, reg, dtarget, code1);
    forall pc | 0 <= pc < |code| ensures code2[pc] == PatchedAt(code, done + {j}, vtarget, reg, dtarget, pc) {
      assert code1[pc] == PatchedAt(code, done, vtarget, reg, dtarget, pc);
    }
  }

  lemma {:induction false} DroppedRest(code: Code, done: set<int>, j: int, code': Code)
    requires 0 <= j < |code| && code[j].OpJmp? && j !in done && Dropped(code, done, code')
    ensures code'[j] == code[j] && (j >= 1 ==> code'[j - 1] == code[j - 1])
  {
  }

  lemma {:induction false} DroppedNext(code: Code, done: set<int>, j: int, code1: Code, code2: Code)
    requires 0 <= j < |code| && code[j].OpJmp? && j !in done && Dropped(code, done, code1)
    requires code2 == if j >= 1 && code1[j - 1].OpTestSet? then code1[j - 1 := PatchTest(code1[j - 1], NO_REG)]
             else code1
    ensures Dropped(code, done + {j}, code2) && code2[j] == code[j]
  {
    DroppedRest(code, done, j, code1);
  }

  lemma {:induction false} HeadIn(l: seq<int>)
    ensures l == [] || l[0] in JumpSet(l)
  {
  }

  /** Equal list heads mean that both lists are empty. */
  lemma {:induction false} NoJumps(site: Site, code: Code, v: ExpDesc, tl: seq<int>, fl: seq<int>)
    requires IsList(code, v.t, tl) && IsList(code, v.f, fl) && v.t == v.f && Apart(site, JumpSet(tl), JumpSet(fl))
    ensures tl == [] && fl == [] && v.t == NO_JUMP
  {
    HeadIn(tl);
    HeadIn(fl);
  }

  lemma {:induction false} EndsStraight(site: Site, code: Code, last: int, ts: set<int>, fs: set<int>, j: int)
    requires BranchWf(site, code, last, ts, fs) && j in ts + fs
    ensures |code| > 0 && !IsTest(code[|code| - 1])
  {
    assert InstrOk(code, site.out + ts + fs, last, |code| - 1);
  }

  lemma {:induction false} ListUnder(site: Site, code: Code, code': Code, last: int, head: int, kl: seq<int>,
                                     jl: seq<int>, dl: seq<int>)
    requires BranchWf(site, code, last, JumpSet(kl) + JumpSet(jl), JumpSet(dl)) && IsList(code, head, dl)
    requires |code'| == |code|
    requires forall pc | 0 <= pc < |code| :: code'[pc] == code[pc] || (kl != [] && pc == kl[|kl| - 1])
    ensures IsList(code', head, dl)
  {
    forall i | 0 <= i < |dl| ensures code'[dl[i]] == code[dl[i]] {
      assert dl[i] in JumpSet(dl);
      if kl != [] { assert kl[|kl| - 1] in JumpSet(kl); }
    }
  }
}
