/** Paths through a table in the registers: as long as the cache does no harm they go where the path
    on values goes. */
module RegisterPaths {
  import opened Words
  import opened Opcodes
  import opened Validator
  import opened Fields
  import opened Specializer
  import opened Interpreter
  import opened Linked
  import opened StringCompare
  import opened Preservation
  import opened Registers
  import opened Programs
  import opened Tables

  /** The cache does no harm here: no push over a string or a root, and a verdict on an integer. */
  predicate Quiet(p: Point) {
    && (IsPush(p.a.out.op) && |p.vs| >= 2 ==> Bx(p.vs).VInt?)
    && (p.a.out.op.Return? && |p.vs| >= 1 ==> Ax(p.vs).VInt?)
    && !p.a.out.op.Bit?
  }

  lemma QuietFollows(env: Env, symtab: seq<byte>, p: Point, r: Regs)
    requires env.Valid() && Quiet(p) && Represents(r, p.vs) && TurnOf(env, symtab, false, p) != Halt(Wild)
    ensures Follows(RegInsn(env, p.a.out, p.a.pc, r), TurnOf(env, symtab, false, p))
  {
    StepExactly(env, p.a.out, p.a.pc, r, p.vs);
  }

  /** The array holds no string in the place of the first entry. */
  predicate NoStringFirst(r: Regs) { |r.e| == STACK_LEN && !r.e[2].u.Chars? }

  /** Nothing but a string as first entry puts one there. */
  lemma FirstStays(env: Env, i: Insn, pc: nat, r: Regs, vs: seq<Value>)
    requires env.Valid() && Represents(r, vs) && NoStringFirst(r)
    requires var c, t := RegInsn(env, i, pc, r), StepInsn(env, i, pc, vs);
             t.Goto? && Follows(c, t) && (t.stack != [] ==> !t.stack[0].VStr?)
    ensures NoStringFirst(RegInsn(env, i, pc, r).r)
  {
    var c, t := RegInsn(env, i, pc, r), StepInsn(env, i, pc, vs);
    if t.stack != [] {
      assert Keeps(c.r, |t.stack|, 0, t.stack[0]);
    }
  }

  lemma RegStepAt(env: Env, code: seq<byte>, a: Row, r: Regs)
    requires env.Valid() && Shaped(r) && Stands(code, a.pc, a.out)
    ensures RegStep(env, code, a.pc, r) == RegInsn(env, a.out, a.pc, r)
  {
  }

  lemma RegRunTurn(env: Env, code: seq<byte>, a: Row, r: Regs, c: RTurn)
    requires env.Valid() && Shaped(r) && Stands(code, a.pc, a.out) && RegInsn(env, a.out, a.pc, r) == c
    requires c.Go? ==> a.pc < c.pc && Shaped(c.r)
    ensures RegRun(env, code, a.pc, r) == if c.Stop? then c.o else RegRun(env, code, c.pc, c.r)
  {
    RegStepAt(env, code, a, r);
  }

  predicate NotText(p: Point) { p.vs != [] ==> !p.vs[0].VStr? }

  predicate Smooth(ps: seq<Point>) { forall j :: 0 <= j < |ps| ==> Quiet(ps[j]) && NotText(ps[j]) }

  /** One move, in the registers. */
  lemma MoveInRegisters(env: Env, code: seq<byte>, symtab: seq<byte>, p: Point, q: Point, r: Regs) returns (r': Regs)
    requires env.Valid() && Moves(env, symtab, false, p, q) && Quiet(p) && Represents(r, p.vs)
    requires Stands(code, p.a.pc, p.a.out)
    ensures Represents(r', q.vs) && RegRun(env, code, p.a.pc, r) == RegRun(env, code, q.a.pc, r')
    ensures NoStringFirst(r) && NotText(q) ==> NoStringFirst(r')
  {
    QuietFollows(env, symtab, p, r);
    var c := RegInsn(env, p.a.out, p.a.pc, r);
    RegRunTurn(env, code, p.a, r, c);
    if NoStringFirst(r) && NotText(q) {
      FirstStays(env, p.a.out, p.a.pc, r, p.vs);
    }
    r' := c.r;
  }

  lemma {:induction false} PathInRegisters(env: Env, code: seq<byte>, symtab: seq<byte>, rows: seq<Row>, ps: seq<Point>,
                                           k: nat, r: Regs) returns (r': Regs)
    requires env.Valid() && IsPath(env, symtab, false, rows, ps) && k < |ps| && Represents(r, ps[k].vs)
    requires forall a :: a in rows ==> Stands(code, a.pc, a.out)
    requires forall j :: 0 <= j < |ps| ==> Quiet(ps[j])
    ensures Represents(r', ps[|ps| - 1].vs)
    ensures RegRun(env, code, ps[k].a.pc, r) == RegRun(env, code, ps[|ps| - 1].a.pc, r')
    ensures NoStringFirst(r) && (forall j :: 0 <= j < |ps| ==> NotText(ps[j])) ==> NoStringFirst(r')
    decreases |ps| - k
  {
    r' := r;
    if k < |ps| - 1 {
      assert MovesAt(env, symtab, false, ps, k);
      r' := MoveInRegisters(env, code, symtab, ps[k], ps[k + 1], r);
      r' := PathInRegisters(env, code, symtab, rows, ps, k + 1, r');
    }
  }

  lemma FreshIsEmpty(e: seq<Cell>)
    requires |e| == STACK_LEN
    ensures Represents(RegInit(e), [])
  {
  }

  /** A quiet path to a halt is a run of the registers, whatever the fresh array holds. */
  lemma PathEnds(env: Env, code: seq<byte>, symtab: seq<byte>, rows: seq<Row>, ps: seq<Point>, o: Outcome, e: seq<Cell>)
    requires env.Valid() && Ending(env, symtab, false, rows, ps, o) && o != Wild && |e| == STACK_LEN
    requires forall a :: a in rows ==> Stands(code, a.pc, a.out)
    requires forall j :: 0 <= j < |ps| ==> Quiet(ps[j])
    ensures RegRun(env, code, rows[0].pc, RegInit(e)) == o
  {
    FreshIsEmpty(e);
    var r := PathInRegisters(env, code, symtab, rows, ps, 0, RegInit(e));
    var p := ps[|ps| - 1];
    QuietFollows(env, symtab, p, r);
    RegRunTurn(env, code, p.a, r, Stop(o));
  }

  /** What a comparator of strings makes of two entries of which the first is no string. */
  lemma NoStringsCompared(env: Env, i: Insn, pc: nat, r: Regs, vs: seq<Value>)
    requires env.Valid() && Represents(r, vs) && |vs| == 2 && NoStringFirst(r) && (i.op.CmpString? || i.op.CmpGlob?)
    ensures RegInsn(env, i, pc, r) == Stop(Wild)
  {
  }

  /** A quiet path to such a comparator ends in the registers as it does on values, when its first
      entry starts as a pointer or the fresh array holds no string in its place. */
  lemma PathEndsWild(env: Env, code: seq<byte>, symtab: seq<byte>, rows: seq<Row>, ps: seq<Point>, e: seq<Cell>)
    requires env.Valid() && Ending(env, symtab, false, rows, ps, Wild) && |e| == STACK_LEN && |ps| >= 2
    requires forall a :: a in rows ==> Stands(code, a.pc, a.out)
    requires forall j :: 0 <= j < |ps| ==> Quiet(ps[j]) && NotText(ps[j])
    requires var p := ps[|ps| - 1]; |p.vs| == 2 && (p.a.out.op.CmpString? || p.a.out.op.CmpGlob?)
    requires !e[2].u.Chars? || (ps[1].vs != [] && ps[1].vs[0].VPtr?)
    ensures RegRun(env, code, rows[0].pc, RegInit(e)) == Wild
  {
    FreshIsEmpty(e);
    assert MovesAt(env, symtab, false, ps, 0);
    var r := MoveInRegisters(env, code, symtab, ps[0], ps[1], RegInit(e));
    if ps[1].vs != [] {
      assert Keeps(r, |ps[1].vs|, 0, ps[1].vs[0]);
    }
    r := PathInRegisters(env, code, symtab, rows, ps, 1, r);
    var p := ps[|ps| - 1];
    NoStringsCompared(env, p.a.out, p.a.pc, r, p.vs);
    RegRunTurn(env, code, p.a, r, Stop(Wild));
  }

  /** A table with a smooth path: linked, with its runs on values and in the registers. */
  lemma TableEnds(src: Source, rows: seq<Row>, env: Env, ps: seq<Point>, o: Outcome, qs: seq<Point>, o': Outcome,
                  e: seq<Cell>)
    requires IsTable(src, rows) && Starts(rows[0]) && env.Valid() && |e| == STACK_LEN && Smooth(ps)
    requires Ending(env, src.symtab, false, rows, ps, o) && Ending(env, src.symtab, true, rows, qs, o')
    requires o == Wild ==>
               var p := ps[|ps| - 1];
               && |ps| >= 2 && |p.vs| == 2 && (p.a.out.op.CmpString? || p.a.out.op.CmpGlob?)
               && (!e[2].u.Chars? || (ps[1].vs != [] && ps[1].vs[0].VPtr?))
    ensures IsLinked(Code(rows), src) && FinalCode(Code(rows), src) == Final(rows)
    ensures FinalGids(Code(rows), src) == rows[|rows| - 1].arena.gids
    ensures Run(env, Final(rows), RState(0, [])) == RegRun(env, Final(rows), 0, RegInit(e)) == o
    ensures RefRun(env, Code(rows), src.symtab, RState(0, [])) == o'
  {
    TableRuns(src, rows, env, ps, o, qs, o');
    TableLinked(src, rows);
    if o == Wild {
      PathEndsWild(env, Final(rows), src.symtab, rows, ps, e);
    } else {
      PathEnds(env, Final(rows), src.symtab, rows, ps, o, e);
    }
  }
}
