/** Statement lists: assignments to local variables, and what their code does as a whole. */
module LuaBlock {
  import opened LuaVm
  import opened LuaMeaning
  import opened LuaSteps

  datatype Assign = Assign(r: int, e: Expr)

  /** The meaning of a statement list, on the source. */
  function Exec(w: World, b: seq<Assign>, r: Regs): Regs {
    if b == [] then r else var before := Exec(w, b[..|b| - 1], r); before[b[|b| - 1].r := Eval(w, b[|b| - 1].e, before)]
  }

  predicate ScopedBlock(b: seq<Assign>, nvar: int) {
    forall i | 0 <= i < |b| :: 0 <= b[i].r < nvar && Scoped(b[i].e, nvar)
  }

  /** For one world and one initial register file: a run from the start reaches the end of the code,
      and the local variables are what the statements make them. */
  ghost predicate ExecutesAt(w: World, b: seq<Assign>, code: Code, nvar: int, r0: Regs) {
    var s := Run(w, code, {}, State(0, r0));
    s.pc == |code| && Agree(s.regs, Exec(w, b, r0), nvar)
  }

  ghost predicate Executes(b: seq<Assign>, code: Code, nvar: int) {
    forall w, r0 :: ExecutesAt(w, b, code, nvar, r0)
  }

  /** The code of a whole function body, observed from its first instruction. */
  function Whole(code: Code, base: int): Site {
    Site(0, {}, code, base)
  }

  lemma {:induction false} EmptyBody(nvar: int)
    ensures Starts(Whole([], nvar), 0) && Executes([], [], nvar)
  {
    forall w, r0 ensures ExecutesAt(w, [], [], nvar, r0) {
    }
  }

  /** One more assignment. */
  lemma {:induction false} AssignMeans(w: World, b: seq<Assign>, code: Code, nvar: int, a: Assign, code': Code,
                                       r0: Regs)
    requires ExecutesAt(w, b, code, nvar, r0) && 0 <= a.r < nvar && Scoped(a.e, nvar)
    requires DenotesAt(w, Whole(code, nvar), a.e, code', VNonReloc(a.r), {}, {}, a.r, r0)
    ensures ExecutesAt(w, b + [a], code', nvar, r0)
  {
    var s0, before := Run(w, code, {}, State(0, r0)), Exec(w, b, r0);
    assert (b + [a])[..|b + [a]| - 1] == b;
    assert Pending({}, VNonReloc(a.r), {}, {}) + Pause(VNonReloc(a.r)) == {};
    EvalLocal(w, a.e, nvar, s0.regs, before);
  }

  lemma {:induction false} AssignStep(b: seq<Assign>, code: Code, nvar: int, a: Assign, code': Code, last: int)
    requires Executes(b, code, nvar) && 0 <= a.r < nvar && Scoped(a.e, nvar)
    requires Wf(Whole(code, nvar), nvar, code', last, VNonReloc(a.r), {}, {})
    requires Denotes(Whole(code, nvar), a.e, code', VNonReloc(a.r), {}, {}, a.r)
    ensures Executes(b + [a], code', nvar) && Starts(Whole(code', nvar), last)
  {
    assert Pending({}, VNonReloc(a.r), {}, {}) == {};
    forall w, r0 ensures ExecutesAt(w, b + [a], code', nvar, r0) {
      assert ExecutesAt(w, b, code, nvar, r0);
      assert DenotesAt(w, Whole(code, nvar), a.e, code', VNonReloc(a.r), {}, {}, a.r, r0);
      AssignMeans(w, b, code, nvar, a, code', r0);
    }
  }
}
