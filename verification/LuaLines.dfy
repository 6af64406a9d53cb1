/** The compressed table from instructions to source lines: one signed byte per instruction, with
    absolute entries wherever a difference does not fit and at regular intervals. */
module LuaLines {
  const LIMLINEDIFF := 0x80
  const ABSLINEINFO := -0x80
  const MAXIWTHABS := 128

  datatype AbsLine = AbsLine(pc: int, line: int)

  /** The table, the line saved last, and the number of instructions since the last absolute entry. */
  datatype Table = Table(deltas: seq<int>, abs: seq<AbsLine>, previous: int, since: int)

  // ---------------------------------------------------------------- what a table stands for

  function LineBefore(defined: int, lines: seq<int>, pc: int): int
    requires 0 <= pc <= |lines|
  {
    if pc == 0 then defined else lines[pc - 1]
  }

  function LastAbs(t: Table): int {
    if t.abs == [] then 0 else t.abs[|t.abs| - 1].pc
  }

  /** An entry is at most MAXIWTHABS instructions behind the one before it. */
  predicate Near(abs: seq<AbsLine>, i: int)
    requires 0 <= i < |abs|
  {
    abs[i].pc <= (if i == 0 then 0 else abs[i - 1].pc) + MAXIWTHABS
  }

  ghost predicate Spaced(abs: seq<AbsLine>, n: int) {
    && (forall i | 0 <= i < |abs| :: 0 <= abs[i].pc < n)
    && (forall i, j | 0 <= i < j < |abs| :: abs[i].pc < abs[j].pc)
    && (forall i | 0 <= i < |abs| :: Near(abs, i))
  }

  ghost predicate HasEntry(abs: seq<AbsLine>, pc: int) {
    exists i | 0 <= i < |abs| :: abs[i].pc == pc
  }

  /** The table is the compressed form of the plain list of lines. */
  ghost predicate Encodes(t: Table, defined: int, lines: seq<int>) {
    && |t.deltas| == |lines| && Spaced(t.abs, |lines|) && |lines| - LastAbs(t) <= MAXIWTHABS
    && (forall pc {:trigger t.deltas[pc]} | 0 <= pc < |lines| && t.deltas[pc] != ABSLINEINFO ::
          -0x80 < t.deltas[pc] < 0x80 && lines[pc] == LineBefore(defined, lines, pc) + t.deltas[pc])
    && (forall pc {:trigger HasEntry(t.abs, pc)} | 0 <= pc < |lines|
        && t.deltas[pc] == ABSLINEINFO :: HasEntry(t.abs, pc))
    && (forall i | 0 <= i < |t.abs| :: t.deltas[t.abs[i].pc] == ABSLINEINFO && t.abs[i].line == lines[t.abs[i].pc])
  }

  /** The next line can be saved relative to the last one. */
  ghost predicate Synced(t: Table, defined: int, lines: seq<int>) {
    t.previous == LineBefore(defined, lines, |lines|) && t.since == |lines| - LastAbs(t)
  }

  /** The next line will be saved as an absolute one. */
  predicate Forced(t: Table) {
    t.since >= MAXIWTHABS
  }

  ghost predicate Valid(t: Table, defined: int, lines: seq<int>) {
    Encodes(t, defined, lines) && (Synced(t, defined, lines) || Forced(t))
  }

  // ---------------------------------------------------------------- changing it

  /** savelineinfo for the instruction behind the last one. */
  function Saved(t: Table, line: int): Table {
    var linedif := line - t.previous;
    if linedif >= LIMLINEDIFF || -linedif >= LIMLINEDIFF || t.since >= MAXIWTHABS then
      Table(t.deltas + [ABSLINEINFO], t.abs + [AbsLine(|t.deltas|, line)], line, 1)
    else
      Table(t.deltas + [linedif], t.abs, line, t.since + 1)
  }

  predicate Removable(t: Table) {
    t.deltas != [] && (t.deltas[|t.deltas| - 1] == ABSLINEINFO ==> t.abs != [])
  }

  /** removelastlineinfo, with the instruction removed too. */
  function Removed(t: Table): Table
    requires Removable(t)
  {
    var n := |t.deltas| - 1;
    if t.deltas[n] != ABSLINEINFO then Table(t.deltas[..n], t.abs, t.previous - t.deltas[n], t.since - 1)
    else Table(t.deltas[..n], t.abs[..|t.abs| - 1], t.previous, MAXIWTHABS + 1)
  }

  lemma {:induction false} SavedSpaced(abs: seq<AbsLine>, n: int, line: int)
    requires Spaced(abs, n) && 0 <= n <= (if abs == [] then 0 else abs[|abs| - 1].pc) + MAXIWTHABS
    ensures Spaced(abs + [AbsLine(n, line)], n + 1)
  {
    var abs' := abs + [AbsLine(n, line)];
    forall i | 0 <= i < |abs'| ensures Near(abs', i) {
      if i < |abs| { assert Near(abs, i); }
    }
  }

  lemma {:induction false} EntryKept(abs: seq<AbsLine>, x: AbsLine, pc: int)
    requires HasEntry(abs, pc)
    ensures HasEntry(abs + [x], pc)
  {
    var i :| 0 <= i < |abs| && abs[i].pc == pc;
    assert (abs + [x])[i].pc == pc;
  }

  lemma {:induction false} EntryLeft(abs: seq<AbsLine>, pc: int)
    requires HasEntry(abs, pc) && abs[|abs| - 1].pc != pc
    ensures HasEntry(abs[..|abs| - 1], pc)
  {
    var i :| 0 <= i < |abs| && abs[i].pc == pc;
    assert abs[..|abs| - 1][i].pc == pc;
  }

  /** The relative entries of a list that is extended stay right. */
  lemma {:induction false} DeltasKept(t: Table, defined: int, lines: seq<int>, d: int, line: int)
    requires Encodes(t, defined, lines)
    requires d != ABSLINEINFO ==> -0x80 < d < 0x80 && line == LineBefore(defined, lines, |lines|) + d
    ensures var deltas', lines' := t.deltas + [d], lines + [line];
            forall pc {:trigger deltas'[pc]} | 0 <= pc < |lines'| && deltas'[pc] != ABSLINEINFO ::
              -0x80 < deltas'[pc] < 0x80 && lines'[pc] == LineBefore(defined, lines', pc) + deltas'[pc]
  {
    var deltas', lines' := t.deltas + [d], lines + [line];
    forall pc {:trigger deltas'[pc]} | 0 <= pc < |lines'| && deltas'[pc] != ABSLINEINFO
      ensures -0x80 < deltas'[pc] < 0x80 && lines'[pc] == LineBefore(defined, lines', pc) + deltas'[pc]
    {
      assert LineBefore(defined, lines', pc) == LineBefore(defined, lines, pc);
      if pc < |lines| { assert deltas'[pc] == t.deltas[pc]; }
    }
  }

  lemma {:induction false} SavedRelative(t: Table, defined: int, lines: seq<int>, d: int)
    requires Encodes(t, defined, lines) && -0x80 < d < 0x80 && |lines| < LastAbs(t) + MAXIWTHABS
    ensures var line := LineBefore(defined, lines, |lines|) + d;
            Encodes(Table(t.deltas + [d], t.abs, line, t.since + 1), defined, lines + [line])
  {
    var line := LineBefore(defined, lines, |lines|) + d;
    DeltasKept(t, defined, lines, d, line);
    var deltas' := t.deltas + [d];
    forall pc | 0 <= pc < |deltas'| && deltas'[pc] == ABSLINEINFO ensures HasEntry(t.abs, pc) {
      assert t.deltas[pc] == ABSLINEINFO;
    }
  }

  lemma {:induction false} SavedAbsolute(t: Table, defined: int, lines: seq<int>, line: int)
    requires Encodes(t, defined, lines)
    ensures Encodes(Table(t.deltas + [ABSLINEINFO], t.abs + [AbsLine(|lines|, line)], line, 1), defined, lines + [line])
  {
    DeltasKept(t, defined, lines, ABSLINEINFO, line);
    SavedSpaced(t.abs, |lines|, line);
    var deltas', abs' := t.deltas + [ABSLINEINFO], t.abs + [AbsLine(|lines|, line)];
    forall pc | 0 <= pc < |deltas'| && deltas'[pc] == ABSLINEINFO ensures HasEntry(abs', pc) {
      if pc < |lines| {
        assert t.deltas[pc] == ABSLINEINFO && HasEntry(t.abs, pc);
        EntryKept(t.abs, AbsLine(|lines|, line), pc);
      } else {
        assert abs'[|t.abs|].pc == pc;
      }
    }
  }

  /** Saving a line appends it to the plain list. */
  lemma {:induction false} SavedEncodes(t: Table, defined: int, lines: seq<int>, line: int)
    requires Valid(t, defined, lines)
    ensures Encodes(Saved(t, line), defined, lines + [line]) && Synced(Saved(t, line), defined, lines + [line])
  {
    if Saved(t, line).abs == t.abs {
      SavedRelative(t, defined, lines, line - t.previous);
    } else {
      SavedAbsolute(t, defined, lines, line);
    }
  }

  /** The last entry belongs to the last instruction, if that one is absolute. */
  lemma {:induction false} LastEntry(t: Table, defined: int, lines: seq<int>)
    requires Encodes(t, defined, lines) && lines != [] && t.deltas[|lines| - 1] == ABSLINEINFO
    ensures t.abs != [] && t.abs[|t.abs| - 1].pc == |lines| - 1
  {
    assert HasEntry(t.abs, |lines| - 1);
    var i :| 0 <= i < |t.abs| && t.abs[i].pc == |lines| - 1;
  }

  /** Dropping the last of the entries, or shortening the code behind it, keeps them in order. */
  lemma {:induction false} RemovedSpaced(abs: seq<AbsLine>, n: int, abs': seq<AbsLine>)
    requires Spaced(abs, n) && n > 0
    requires if abs != [] && abs[|abs| - 1].pc == n - 1 then abs' == abs[..|abs| - 1] else abs' == abs
    ensures Spaced(abs', n - 1)
    ensures abs' != abs ==> n - 1 - (if abs' == [] then 0 else abs'[|abs'| - 1].pc) <= MAXIWTHABS
  {
    forall i | 0 <= i < |abs'| ensures Near(abs', i) { assert Near(abs, i); }
    if abs' != abs { assert Near(abs, |abs| - 1); }
  }

  lemma {:induction false} RemovedEntries(t: Table, defined: int, lines: seq<int>)
    requires Encodes(t, defined, lines) && lines != []
    ensures Removable(t)
    ensures var t', n := Removed(t), |lines| - 1;
            && Spaced(t'.abs, n) && n - LastAbs(t') <= MAXIWTHABS
            && (forall pc {:trigger HasEntry(t'.abs, pc)} | 0 <= pc < n
                && t.deltas[pc] == ABSLINEINFO :: HasEntry(t'.abs, pc))
  {
    if t.deltas[|lines| - 1] == ABSLINEINFO { LastEntry(t, defined, lines); }
    RemovedSpaced(t.abs, |lines|, Removed(t).abs);
    EntriesLeft(t, defined, lines);
  }

  lemma {:induction false} EntriesLeft(t: Table, defined: int, lines: seq<int>)
    requires Encodes(t, defined, lines) && lines != [] && Removable(t)
    requires t.deltas[|lines| - 1] == ABSLINEINFO ==> t.abs[|t.abs| - 1].pc == |lines| - 1
    ensures var t', n := Removed(t), |lines| - 1;
            forall pc {:trigger HasEntry(t'.abs, pc)} | 0 <= pc < n
                   && t.deltas[pc] == ABSLINEINFO :: HasEntry(t'.abs, pc)
  {
    var t', n := Removed(t), |lines| - 1;
    forall pc | 0 <= pc < n && t.deltas[pc] == ABSLINEINFO ensures HasEntry(t'.abs, pc) {
      assert HasEntry(t.abs, pc);
      if t'.abs != t.abs { EntryLeft(t.abs, pc); }
    }
  }

  lemma {:induction false} RemovedDeltas(t: Table, defined: int, lines: seq<int>)
    requires Encodes(t, defined, lines) && lines != []
    ensures Removable(t) && Encodes(Removed(t), defined, lines[..|lines| - 1])
  {
    RemovedEntries(t, defined, lines);
    var t', lines' := Removed(t), lines[..|lines| - 1];
    forall pc {:trigger t'.deltas[pc]} | 0 <= pc < |lines'| && t'.deltas[pc] != ABSLINEINFO
      ensures -0x80 < t'.deltas[pc] < 0x80 && lines'[pc] == LineBefore(defined, lines', pc) + t'.deltas[pc]
    {
      assert LineBefore(defined, lines', pc) == LineBefore(defined, lines, pc) && t'.deltas[pc] == t.deltas[pc];
    }
  }

  /** Whatever line is saved next, it is appended to the plain list. */
  ghost predicate GoesOn(t: Table, defined: int, lines: seq<int>) {
    forall line :: Encodes(Saved(t, line), defined, lines + [line])
  }

  lemma {:induction false} GoesOnIff(t: Table, defined: int, lines: seq<int>)
    requires Encodes(t, defined, lines)
    ensures GoesOn(t, defined, lines) <==>
            Forced(t) || (t.previous == LineBefore(defined, lines, |lines|) && |lines| - LastAbs(t) < MAXIWTHABS)
  {
    if Forced(t) || (t.previous == LineBefore(defined, lines, |lines|) && |lines| - LastAbs(t) < MAXIWTHABS) {
      forall line ensures Encodes(Saved(t, line), defined, lines + [line]) {
        if Saved(t, line).abs == t.abs {
          SavedRelative(t, defined, lines, line - t.previous);
        } else {
          SavedAbsolute(t, defined, lines, line);
        }
      }
    } else {
      NotAppended(t, defined, lines);
    }
  }

  /** Saving the same line again goes wrong otherwise. */
  lemma {:induction false} NotAppended(t: Table, defined: int, lines: seq<int>)
    requires Encodes(t, defined, lines) && !Forced(t)
    requires t.previous != LineBefore(defined, lines, |lines|) || |lines| - LastAbs(t) >= MAXIWTHABS
    ensures !Encodes(Saved(t, t.previous), defined, lines + [t.previous])
  {
    var n, t', lines' := |lines|, Saved(t, t.previous), lines + [t.previous];
    assert t' == Table(t.deltas + [0], t.abs, t.previous, t.since + 1);
    assert t'.deltas[n] == 0 && lines'[n] == t.previous;
    assert LineBefore(defined, lines', n) == LineBefore(defined, lines, n);
  }

  /** Removing the last line leaves the others encoded.  Whatever is saved next is appended to them if
      and only if the line saved last is the last one, or the entry removed was absolute, or the
      counter was still above its limit. */
  lemma {:induction false} RemovedEncodes(t: Table, defined: int, lines: seq<int>)
    requires Valid(t, defined, lines) && lines != []
    ensures Removable(t) && Encodes(Removed(t), defined, lines[..|lines| - 1])
    ensures GoesOn(Removed(t), defined, lines[..|lines| - 1]) <==>
            t.previous == LineBefore(defined, lines, |lines|) || t.deltas[|lines| - 1] == ABSLINEINFO
                || t.since > MAXIWTHABS
  {
    RemovedDeltas(t, defined, lines);
    RemovedStep(t, defined, lines);
    GoesOnIff(Removed(t), defined, lines[..|lines| - 1]);
  }

  lemma {:induction false} RemovedStep(t: Table, defined: int, lines: seq<int>)
    requires Valid(t, defined, lines) && lines != [] && Removable(t)
    ensures var t', n := Removed(t), |lines| - 1;
            Forced(t') || (t'.previous == LineBefore(defined, lines[..n], n) && n - LastAbs(t') < MAXIWTHABS) <==>
            t.previous == LineBefore(defined, lines, |lines|) || t.deltas[n] == ABSLINEINFO || t.since > MAXIWTHABS
  {
    var n := |lines| - 1;
    assert LineBefore(defined, lines[..n], n) == LineBefore(defined, lines, n);
    assert t.deltas[n] != ABSLINEINFO ==> lines[n] == LineBefore(defined, lines, n) + t.deltas[n];
  }

  /** The same for the invariant. */
  lemma {:induction false} RemovedValid(t: Table, defined: int, lines: seq<int>)
    requires Valid(t, defined, lines) && lines != []
    ensures Removable(t)
    ensures Valid(Removed(t), defined, lines[..|lines| - 1]) <==>
            Synced(t, defined, lines) || t.deltas[|lines| - 1] == ABSLINEINFO || t.since > MAXIWTHABS
  {
    RemovedDeltas(t, defined, lines);
    var n := |lines| - 1;
    assert LineBefore(defined, lines[..n], n) == LineBefore(defined, lines, n);
    if t.deltas[n] != ABSLINEINFO {
      assert Synced(Removed(t), defined, lines[..n]) <==> Synced(t, defined, lines);
    }
  }

  /** A table with three relative entries and an absolute one. */
  const FOUR := Table([1, 1, 1, ABSLINEINFO], [AbsLine(3, 1000)], 1000, 1)

  lemma {:induction false} FourSaved()
    ensures Saved(Saved(Saved(Saved(Table([], [], 0, 0), 1), 2), 3), 1000) == FOUR
  {
    assert Saved(Saved(Table([], [], 0, 0), 1), 2) == Table([1, 1], [], 2, 2);
  }

  lemma {:induction false} FourValid()
    ensures Valid(FOUR, 0, [1, 2, 3, 1000])
  {
    var lines := [1, 2, 3, 1000];
    assert FOUR.abs[0].pc == 3 && Near(FOUR.abs, 0) && LastAbs(FOUR) == 3;
    assert HasEntry(FOUR.abs, 3);
    assert LineBefore(0, lines, 0) == 0 && LineBefore(0, lines, 1) == 1 && LineBefore(0, lines, 2) == 2;
    assert LineBefore(0, lines, 4) == 1000;
  }

  /** Three removals in a row would go too far: the line saved last is not restored when an absolute
      entry goes, and once the counter is below the limit again the next difference is taken from
      the wrong line.  The generator never does that: both its uses of the operation save a line at
      once (`RunEncodes`). */
  lemma {:induction false} ThreeRemovalsFail()
    ensures FOUR == Saved(Saved(Saved(Saved(Table([], [], 0, 0), 1), 2), 3), 1000) && Valid(FOUR, 0, [1, 2, 3, 1000])
    ensures Removable(FOUR) && Removable(Removed(FOUR)) && Removable(Removed(Removed(FOUR)))
    ensures !Encodes(Saved(Removed(Removed(Removed(FOUR))), 1000), 0, [1, 1000])
  {
    FourSaved();
    FourValid();
    FourRemoved();
    WrongLine();
  }

  lemma {:induction false} FourRemoved()
    ensures Removable(FOUR) && Removable(Removed(FOUR)) && Removable(Removed(Removed(FOUR)))
    ensures Removed(Removed(Removed(FOUR))) == Table([1], [], 998, 127)
  {
    assert Removed(FOUR) == Table([1, 1, 1], [], 1000, 129);
    assert Removed(Removed(FOUR)) == Table([1, 1], [], 999, 128);
  }

  lemma {:induction false} WrongLine()
    ensures !Encodes(Saved(Table([1], [], 998, 127), 1000), 0, [1, 1000])
  {
    assert Saved(Table([1], [], 998, 127), 1000) == Table([1, 2], [], 1000, 128);
    assert Table([1, 2], [], 1000, 128).deltas[1] == 2;
  }

  // ---------------------------------------------------------------- runs

  /** luaK_code; luaK_fixline, or removelastinstruction followed by luaK_code. */
  datatype Op = Emit(line: int) | Replace(line: int)

  predicate Possible(ops: seq<Op>) {
    ops == [] || ops[0].Emit?
  }

  function Lines(ops: seq<Op>): seq<int> {
    if ops == [] then [] else
      var before := Lines(ops[..|ops| - 1]);
      match ops[|ops| - 1]
      case Emit(line) => before + [line]
      case Replace(line) => (if before == [] then [] else before[..|before| - 1]) + [line]
  }

  function After(t: Table, op: Op): Table
    requires op.Replace? ==> Removable(t)
  {
    match op
    case Emit(line) => Saved(t, line)
    case Replace(line) => Saved(Removed(t), line)
  }

  lemma {:induction false} AfterEncodes(t: Table, defined: int, lines: seq<int>, op: Op)
    requires Encodes(t, defined, lines) && Synced(t, defined, lines) && (op.Replace? ==> lines != [])
    ensures op.Replace? ==> Removable(t)
    ensures var lines' := (if op.Emit? then lines else lines[..|lines| - 1]) + [op.line];
            Encodes(After(t, op), defined, lines') && Synced(After(t, op), defined, lines')
  {
    match op
    case Emit(line) => SavedEncodes(t, defined, lines, line);
    case Replace(line) =>
      RemovedValid(t, defined, lines);
      SavedEncodes(Removed(t), defined, lines[..|lines| - 1], line);
  }

  /** The table after a whole run. */
  ghost predicate Trace(ops: seq<Op>, defined: int, ts: seq<Table>) {
    && |ts| == |ops| + 1 && ts[0] == Table([], [], defined, 0)
    && forall i | 0 <= i < |ops| :: (ops[i].Replace? ==> Removable(ts[i])) && ts[i + 1] == After(ts[i], ops[i])
  }

  /** Every possible run goes through: an entry can be removed whenever the run does so. */
  lemma {:induction false} RunTraced(ops: seq<Op>, defined: int) returns (ts: seq<Table>)
    requires Possible(ops)
    ensures Trace(ops, defined, ts)
  {
    if ops == [] {
      ts := [Table([], [], defined, 0)];
    } else {
      var n := |ops| - 1;
      var before := RunTraced(ops[..n], defined);
      RunEncodes(ops[..n], defined, before);
      AfterEncodes(before[n], defined, Lines(ops[..n]), ops[n]);
      ts := before + [After(before[n], ops[n])];
      TraceOn(ops, defined, before, ts);
    }
  }

  lemma {:induction false} TraceOn(ops: seq<Op>, defined: int, before: seq<Table>, ts: seq<Table>)
    requires ops != [] && Trace(ops[..|ops| - 1], defined, before)
    requires ops[|ops| - 1].Replace? ==> Removable(before[|ops| - 1])
    requires ts == before + [After(before[|ops| - 1], ops[|ops| - 1])]
    ensures Trace(ops, defined, ts)
  {
    var n := |ops| - 1;
    forall i | 0 <= i < |ops| ensures (ops[i].Replace? ==> Removable(ts[i])) && ts[i + 1] == After(ts[i], ops[i]) {
      if i < n { assert ops[i] == ops[..n][i] && ts[i] == before[i] && ts[i + 1] == before[i + 1]; }
    }
  }

  /** After every run the table encodes the plain list of lines that the run recorded. */
  lemma {:induction false} RunEncodes(ops: seq<Op>, defined: int, ts: seq<Table>)
    requires Possible(ops) && Trace(ops, defined, ts)
    ensures Encodes(ts[|ops|], defined, Lines(ops)) && Synced(ts[|ops|], defined, Lines(ops))
    ensures ops != [] ==> Lines(ops) != []
  {
    if ops != [] {
      var n := |ops| - 1;
      RunEncodes(ops[..n], defined, ts[..n + 1]);
      AfterEncodes(ts[n], defined, Lines(ops[..n]), ops[n]);
    }
  }

  // ---------------------------------------------------------------- reading it

  /** The i-th entry is not beyond instruction (i + 1) * MAXIWTHABS. */
  lemma {:induction false} EntryBound(abs: seq<AbsLine>, n: int, i: int)
    requires Spaced(abs, n) && 0 <= i < |abs|
    ensures abs[i].pc <= (i + 1) * MAXIWTHABS
    decreases i
  {
    assert Near(abs, i);
    if i > 0 { EntryBound(abs, n, i - 1); }
  }

  lemma {:induction false} EstimateLow(t: Table, defined: int, lines: seq<int>, pc: int)
    requires Encodes(t, defined, lines) && MAXIWTHABS <= pc < |lines|
    ensures var i := pc / MAXIWTHABS - 1; 0 <= i < |t.abs| && t.abs[i].pc <= pc
  {
    if t.abs != [] { EntryBound(t.abs, |lines|, |t.abs| - 1); }
    var i := pc / MAXIWTHABS - 1;
    EntryBound(t.abs, |lines|, i);
  }

  class LineInfo {
    var lineinfo: seq<int>
    var abslineinfo: seq<AbsLine>
    var previousline: int
    var iwthabs: int
    const linedefined: int

    ghost function Contents(): Table
      reads this
    {
      Table(lineinfo, abslineinfo, previousline, iwthabs)
    }

    /** open_func */
    constructor (line: int)
      ensures linedefined == line && Contents() == Table([], [], line, 0)
    {
      lineinfo, abslineinfo, previousline, iwthabs, linedefined := [], [], line, 0, line;
    }

    /** savelineinfo */
    method SaveLineInfo(line: int)
      modifies this
      ensures Contents() == Saved(old(Contents()), line)
    {
      var linedif := line - previousline;
      var absolute := linedif >= LIMLINEDIFF || -linedif >= LIMLINEDIFF;
      if !absolute {
        absolute := iwthabs >= MAXIWTHABS;
        iwthabs := iwthabs + 1;
      }
      if absolute {
        abslineinfo := abslineinfo + [AbsLine(|lineinfo|, line)];
        linedif := ABSLINEINFO;
        iwthabs := 1;
      }
      lineinfo := lineinfo + [linedif];
      previousline := line;
    }

    /** removelastlineinfo and removelastinstruction */
    method RemoveLast()
      requires Removable(Contents())
      modifies this
      ensures Contents() == Removed(old(Contents()))
    {
      var pc := |lineinfo| - 1;
      if lineinfo[pc] != ABSLINEINFO {
        previousline := previousline - lineinfo[pc];
        iwthabs := iwthabs - 1;
      } else {
        abslineinfo := abslineinfo[..|abslineinfo| - 1];
        iwthabs := MAXIWTHABS + 1;
      }
      lineinfo := lineinfo[..pc];
    }

    /** luaK_fixline */
    method FixLine(line: int, ghost lines: seq<int>)
      requires Encodes(Contents(), linedefined, lines) && Synced(Contents(), linedefined, lines) && lines != []
      modifies this
      ensures Encodes(Contents(), linedefined, lines[..|lines| - 1] + [line])
      ensures Synced(Contents(), linedefined, lines[..|lines| - 1] + [line])
    {
      RemovedValid(Contents(), linedefined, lines);
      SavedEncodes(Removed(Contents()), linedefined, lines[..|lines| - 1], line);
      RemoveLast();
      SaveLineInfo(line);
    }

    /** getbaseline: the nearest absolute entry at or before pc, found from an estimate that is
        never too high. */
    method GetBaseLine(pc: int, ghost lines: seq<int>) returns (line: int, basepc: int)
      requires Encodes(Contents(), linedefined, lines) && 0 <= pc < |lines|
      ensures -1 <= basepc <= pc && line == LineBefore(linedefined, lines, basepc + 1)
      ensures forall k | basepc < k <= pc :: lineinfo[k] != ABSLINEINFO
    {
      if |abslineinfo| == 0 || pc < abslineinfo[0].pc {
        forall k | 0 <= k <= pc ensures lineinfo[k] != ABSLINEINFO { NoEntryBelow(lines, 0, k); }
        return linedefined, -1;
      }
      var i := pc / MAXIWTHABS - 1;
      if pc >= MAXIWTHABS { EstimateLow(Contents(), linedefined, lines, pc); }
      assert i < 0 || (i < |abslineinfo| && abslineinfo[i].pc <= pc);
      while i + 1 < |abslineinfo| && pc >= abslineinfo[i + 1].pc
        invariant -1 <= i < |abslineinfo| && (i >= 0 ==> abslineinfo[i].pc <= pc)
      {
        i := i + 1;
      }
      line, basepc := abslineinfo[i].line, abslineinfo[i].pc;
      forall k | basepc < k <= pc ensures lineinfo[k] != ABSLINEINFO { NoEntryBelow(lines, i + 1, k); }
    }

    /** An instruction between two entries is not absolute. */
    lemma {:induction false} NoEntryBelow(lines: seq<int>, i: int, k: int)
      requires Encodes(Contents(), linedefined, lines) && 0 <= i <= |abslineinfo| && 0 <= k < |lines|
      requires i < |abslineinfo| ==> k < abslineinfo[i].pc
      requires i > 0 ==> abslineinfo[i - 1].pc < k
      ensures lineinfo[k] != ABSLINEINFO
    {
      if lineinfo[k] == ABSLINEINFO {
        assert HasEntry(abslineinfo, k);
        var j :| 0 <= j < |abslineinfo| && abslineinfo[j].pc == k;
        assert false;
      }
    }

    /** luaG_getfuncline returns the recorded line of every instruction. */
    method GetFuncLine(pc: int, ghost lines: seq<int>) returns (line: int)
      requires Encodes(Contents(), linedefined, lines) && 0 <= pc < |lines|
      ensures line == lines[pc]
    {
      var basepc;
      line, basepc := GetBaseLine(pc, lines);
      while basepc < pc
        invariant -1 <= basepc <= pc && line == LineBefore(linedefined, lines, basepc + 1)
        invariant forall k | basepc < k <= pc :: lineinfo[k] != ABSLINEINFO
      {
        basepc := basepc + 1;
        line := line + lineinfo[basepc];
      }
    }

    /** changedline: whether two instructions are on different lines. */
    method ChangedLine(oldpc: int, newpc: int, ghost lines: seq<int>) returns (changed: bool)
      requires Encodes(Contents(), linedefined, lines) && 0 <= oldpc < newpc < |lines|
      ensures changed <==> lines[oldpc] != lines[newpc]
    {
      if newpc - oldpc < MAXIWTHABS / 2 {
        var delta, pc := 0, oldpc;
        while pc < newpc
          invariant oldpc <= pc <= newpc && lines[pc] == lines[oldpc] + delta
        {
          pc := pc + 1;
          if lineinfo[pc] == ABSLINEINFO { break; }
          delta := delta + lineinfo[pc];
          if pc == newpc { return delta != 0; }
        }
      }
      var line0 := GetFuncLine(oldpc, lines);
      var line1 := GetFuncLine(newpc, lines);
      changed := line0 != line1;
    }
  }
}
