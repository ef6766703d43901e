/** Programs that the code accepts and that do not do what they say. */
module Counterexamples {
  import opened Words
  import opened Opcodes
  import opened Validator
  import opened Fields
  import opened Specializer
  import opened Interpreter
  import opened Linked
  import opened StringCompare
  import opened Preservation
  import opened Registers
  import opened RegisterPaths
  import opened Programs
  import opened Tables
  import opened Accesses

  const A: seq<byte> := [97]

  // LE

  const LE0 := Line(0, Num64(1), Num64(1), [], [])
  const LE1 := Line(9, Text(A), Text(A), [S64], [Plain(S64)])
  const LE2 := Line(12, Text(A), Text(A), [S64, Str], [Plain(S64), Plain(Str)])
  const LE3 := Line(15, Op0(Cmp(LE)), Op0(CmpString(LE)), [S64, Str, Str], [Plain(S64), Plain(Str), Plain(Str)])
  const LE4 := Line(16, Op0(Cmp(EQ)), Op0(CmpDoubleS64(EQ)), [S64, S64], [Plain(S64), Plain(Str), Plain(S64)])
  const LE5 := Line(17, Op0(Return), Op0(Return), [S64], [Plain(S64), Plain(S64)])

  /** 1, "a", "a", LE, EQ, RETURN. */
  const LE_ROWS: seq<Row> := [LE0, LE1, LE2, LE3, LE4, LE5]

  lemma LEEnd(src: Source)
    ensures IsTable(src, [LE3] + ([LE4] + [LE5]))
  {
    CompareRow(src, LE4, [LE5], EQ, CmpDoubleS64(EQ));
    CompareRow(src, LE3, [LE4] + [LE5], LE, CmpString(LE));
  }

  lemma LETable(src: Source)
    ensures IsTable(src, LE_ROWS)
  {
    LEEnd(src);
    var rest := [LE3] + ([LE4] + [LE5]);
    PushRow(src, LE2, rest, Str, Plain(Str));
    PushRow(src, LE1, [LE2] + rest, Str, Plain(Str));
    PushRow(src, LE0, [LE1] + ([LE2] + rest), S64, Plain(S64));
    assert LE_ROWS == [LE0] + ([LE1] + ([LE2] + rest));
  }

  lemma SameLiteral()
    ensures StrCmp(StrReg(A, PlainLiteral), StrReg(A, PlainLiteral)) == Some(0)
  {
    var r := StrReg(A, PlainLiteral);
    assert StrCmpFrom(r, 1, r, 1) == Some(0);
  }

  function LEPath(): seq<Point> {
    var one, a := VInt(1), PlainText(A);
    [Point(LE0, []), Point(LE1, [one]), Point(LE2, [one, a]), Point(LE3, [one, a, a]), Point(LE4, [one, one])]
  }

  lemma LEPushes(env: Env, symtab: seq<byte>, written: bool, ps: seq<Point>)
    requires env.Valid() && IsPath(env, symtab, written, LE_ROWS, ps) && ps[0] == LEPath()[3]
    ensures IsPath(env, symtab, written, LE_ROWS, LEPath()[..3] + ps)
  {
    var one, a, rs := VInt(1), PlainText(A), LEPath();
    PushPath(env, symtab, written, LE_ROWS, rs[2], a, ps);
    PushPath(env, symtab, written, LE_ROWS, rs[1], a, [rs[2]] + ps);
    PushPath(env, symtab, written, LE_ROWS, rs[0], one, [rs[1]] + ([rs[2]] + ps));
    assert rs[..3] + ps == [rs[0]] + ([rs[1]] + ([rs[2]] + ps));
  }

  lemma LERuns(env: Env, symtab: seq<byte>)
    requires env.Valid()
    ensures Ending(env, symtab, false, LE_ROWS, LEPath(), Assertion)
  {
    var rs := LEPath();
    SameLiteral();
    PathCons(env, symtab, false, LE_ROWS, rs[3], [rs[4]]);
    LEPushes(env, symtab, false, [rs[3]] + [rs[4]]);
    assert rs == rs[..3] + ([rs[3]] + [rs[4]]);
  }

  lemma LEReads(env: Env, symtab: seq<byte>)
    requires env.Valid()
    ensures Ending(env, symtab, true, LE_ROWS, LEPath() + [Point(LE5, [VInt(1)])], Accept)
  {
    var rs, end := LEPath(), Point(LE5, [VInt(1)]);
    SameLiteral();
    PathCons(env, symtab, true, LE_ROWS, rs[4], [end]);
    PathCons(env, symtab, true, LE_ROWS, rs[3], [rs[4]] + [end]);
    LEPushes(env, symtab, true, [rs[3]] + ([rs[4]] + [end]));
    assert rs + [end] == rs[..3] + ([rs[3]] + ([rs[4]] + [end]));
  }

  lemma LESmooth()
    ensures Smooth(LEPath())
  {
  }

  /** LE leaves the specializer one entry too many, and the comparator after it loses its meaning:
      a program that accepts every event stops on an assertion. */
  lemma LEFails(src: Source, env: Env, e: seq<Cell>)
    requires env.Valid() && |e| == STACK_LEN
    ensures IsLinked(Code(LE_ROWS), src) && FinalCode(Code(LE_ROWS), src) == Final(LE_ROWS)
    ensures Run(env, Final(LE_ROWS), RState(0, [])) == RegRun(env, Final(LE_ROWS), 0, RegInit(e)) == Assertion
    ensures RefRun(env, Code(LE_ROWS), src.symtab, RState(0, [])) == Accept
  {
    LETable(src);
    LERuns(env, src.symtab);
    LEReads(env, src.symtab);
    LESmooth();
    TableEnds(src, LE_ROWS, env, LEPath(), Assertion, LEPath() + [Point(LE5, [VInt(1)])], Accept, e);
  }

  /** A smooth path to a comparator of strings on a stack of two. */
  predicate Clashes(ps: seq<Point>) {
    && |ps| >= 2 && Smooth(ps)
    && var p := ps[|ps| - 1]; |p.vs| == 2 && (p.a.out.op.CmpString? || p.a.out.op.CmpGlob?)
  }

  // A field compared with a literal

  /** The field, the literal, EQ, RETURN. */
  function EqRows(x: Access, op: Op, t: RegType, lit: Insn, lt: RegType, cmp: Op): seq<Row> {
    var arena, n := Recorded(x, EMPTY), Size(lit);
    AccessRows(x, op, 0, map[], EMPTY)
    + [Row(5, lit, lit, [Unknown], map[], [Plain(t)], arena),
       Row(5 + n, Op0(Cmp(EQ)), Op0(cmp), [Unknown, lt], map[], [Plain(t), Plain(lt)], arena),
       Row(6 + n, Op0(Return), Op0(Return), [S64], map[], [Plain(S64)], arena)]
  }

  lemma EqEnd(src: Source, t: RegType, lit: Insn, lt: RegType, cmp: Op, p: Row, q: Row, r: Row)
    requires Pushes(lit, lt, Plain(lt)) && CompareOk(lt, Unknown, EQ) && r.mp == q.mp == p.mp == map[]
    requires p.i == p.out == lit && p.ts == [Unknown] && p.es == [Plain(t)] && q.pc == p.pc + Size(lit)
    requires q.i == Op0(Cmp(EQ)) && q.out == Op0(cmp) && q.ts == [Unknown, lt] && q.es == [Plain(t), Plain(lt)]
    requires PickCompare(EQ, lt, t) == Some(cmp) && r.pc == q.pc + 1 && r.arena == q.arena == p.arena
    requires r.i == r.out == Op0(Return) && r.ts == [S64] && r.es == [Plain(S64)]
    ensures IsTable(src, [p] + ([q] + [r]))
  {
    CompareRow(src, q, [r], EQ, cmp);
    PushRow(src, p, [q] + [r], lt, Plain(lt));
  }

  lemma EqTable(src: Source, x: Access, op: Op, t: RegType, lit: Insn, lt: RegType, cmp: Op)
    requires Resolves(src, x) && LoadTarget(x.ot) == Some((t, op)) && Pushes(lit, lt, Plain(lt))
    requires CompareOk(lt, Unknown, EQ) && PickCompare(EQ, lt, t) == Some(cmp)
    ensures IsTable(src, EqRows(x, op, t, lit, lt, cmp))
  {
    var rows := EqRows(x, op, t, lit, lt, cmp);
    EqEnd(src, t, lit, lt, cmp, rows[3], rows[4], rows[5]);
    var rest := [rows[3]] + ([rows[4]] + [rows[5]]);
    AccessTable(src, x, op, t, 0, map[], EMPTY, rest);
    assert rows == AccessRows(x, op, 0, map[], EMPTY) + rest;
  }

  lemma EqGoesOn(src: Source, env: Env, x: Access, op: Op, t: RegType, lit: Insn, lt: RegType, cmp: Op,
                 mem: Mem, v: Value, w: Value, written: bool, end: seq<Point>)
    requires Ready(src, env, x, mem) && LoadMem(x.ot, mem) == Ok(v)
    requires LoadTarget(x.ot) == Some((t, op)) && Loads(lit, w)
    requires var rows := EqRows(x, op, t, lit, lt, cmp);
             IsPath(env, src.symtab, written, rows, end) && end[0] == Point(rows[4], [v, w])
    ensures var rows := EqRows(x, op, t, lit, lt, cmp);
            IsPath(env, src.symtab, written, rows, AccessPath(x, op, mem) + ([Point(rows[3], [v])] + end))
  {
    var rows := EqRows(x, op, t, lit, lt, cmp);
    PushPath(env, src.symtab, written, rows, Point(rows[3], [v]), w, end);
    AccessGoesOn(src, env, x, op, t, mem, v, written, rows, [Point(rows[3], [v])] + end);
  }

  lemma EqIsSmooth(x: Access, op: Op, mem: Mem, p: Point, q: Point)
    requires (op.LoadField? || op.LoadTyped?) && Quiet(p) && Quiet(q) && NotText(p) && NotText(q)
    ensures Smooth(AccessPath(x, op, mem) + ([p] + [q]))
  {
    AccessIsSmooth(x, op, mem);
  }

  /** An unsigned enumeration, an integer, EQ, RETURN. */
  function EnumRows(x: Access, n: nat): seq<Row> {
    EqRows(x, LoadField, U64, Num64(n), S64, CmpDoubleS64(EQ))
  }

  lemma EnumRuns(src: Source, env: Env, x: Access, n: nat, m: word) returns (ps: seq<Point>)
    requires x.ot == UnsignedEnum && n < MAX_DATA_LEN && Ready(src, env, x, SlotMem(IntSlot(m)))
    ensures Ending(env, src.symtab, false, EnumRows(x, n), ps, Assertion) && Smooth(ps)
  {
    var rows, mem, v, w := EnumRows(x, n), SlotMem(IntSlot(m)), VInt(m), VInt(Word(n));
    var end := [Point(rows[4], [v, w])];
    EqGoesOn(src, env, x, LoadField, U64, Num64(n), S64, CmpDoubleS64(EQ), mem, v, w, false, end);
    EqIsSmooth(x, LoadField, mem, Point(rows[3], [v]), end[0]);
    ps := AccessPath(x, LoadField, mem) + ([Point(rows[3], [v])] + end);
  }

  lemma EnumAnswer(env: Env, symtab: seq<byte>, x: Access, n: nat, m: word) returns (ps: seq<Point>, o: Outcome)
    requires env.Valid() && n < MAX_DATA_LEN
    ensures var rows := EnumRows(x, n);
            && o == (if m == n then Accept else Reject) && IsPath(env, symtab, true, rows, ps)
            && ps[0] == Point(rows[4], [VInt(m), VInt(n)]) && TurnOf(env, symtab, true, ps[|ps| - 1]) == Halt(o)
  {
    var rows := EnumRows(x, n);
    var p, q := Point(rows[4], [VInt(m), VInt(n)]), Point(rows[5], [Bool(m == n)]);
    PathCons(env, symtab, true, rows, p, [q]);
    ps, o := [p] + [q], if m == n then Accept else Reject;
  }

  lemma EnumReads(src: Source, env: Env, x: Access, n: nat, m: word) returns (ps: seq<Point>, o: Outcome)
    requires x.ot == UnsignedEnum && n < MAX_DATA_LEN && Ready(src, env, x, SlotMem(IntSlot(m)))
    ensures o == (if m == n then Accept else Reject) && Ending(env, src.symtab, true, EnumRows(x, n), ps, o)
  {
    var rows, mem, v := EnumRows(x, n), SlotMem(IntSlot(m)), VInt(m);
    var end;
    end, o := EnumAnswer(env, src.symtab, x, n, m);
    EqGoesOn(src, env, x, LoadField, U64, Num64(n), S64, CmpDoubleS64(EQ), mem, v, VInt(n), true, end);
    var first := AccessPath(x, LoadField, mem);
    EndingAfter(env, src.symtab, true, rows, first, [Point(rows[3], [v])] + end, o);
    ps := first + ([Point(rows[3], [v])] + end);
  }

  /** An unsigned enumeration compared with an integer: a question with an answer on every event,
      and an assertion on every event instead. */
  lemma UnsignedEnumFails(src: Source, env: Env, x: Access, n: nat, m: word, e: seq<Cell>)
    requires |e| == STACK_LEN
    requires x.ot == UnsignedEnum && n < MAX_DATA_LEN && Ready(src, env, x, SlotMem(IntSlot(m)))
    ensures var rows := EnumRows(x, n);
            && IsLinked(Code(rows), src) && FinalCode(Code(rows), src) == Final(rows)
            && FinalGids(Code(rows), src) == map[0 := GidOf(x)]
            && Run(env, Final(rows), RState(0, [])) == RegRun(env, Final(rows), 0, RegInit(e)) == Assertion
            && RefRun(env, Code(rows), src.symtab, RState(0, [])) == if m == n then Accept else Reject
  {
    EqTable(src, x, LoadField, U64, Num64(n), S64, CmpDoubleS64(EQ));
    var ps := EnumRuns(src, env, x, n, m);
    var qs, o := EnumReads(src, env, x, n, m);
    TableEnds(src, EnumRows(x, n), env, ps, Assertion, qs, o, e);
  }

  /** An integer, a string, EQ, RETURN. */
  function MixedRows(x: Access, s: seq<byte>): seq<Row> {
    EqRows(x, LoadTyped(x.ot), S64, Text(s), Str, CmpString(EQ))
  }

  lemma MixedEnds(src: Source, env: Env, x: Access, s: seq<byte>, mem: Mem, m: word, written: bool)
      returns (ps: seq<Point>)
    requires LoadTarget(x.ot) == Some((S64, LoadTyped(x.ot)))
    requires Ready(src, env, x, mem) && LoadMem(x.ot, mem) == Ok(VInt(m))
    ensures Ending(env, src.symtab, written, MixedRows(x, s), ps, if written then Error else Wild)
    ensures Clashes(ps) && ps[1].vs == [VPtr(PayloadRoot)]
  {
    var rows, op, v, w := MixedRows(x, s), LoadTyped(x.ot), VInt(m), PlainText(s);
    var end := [Point(rows[4], [v, w])];
    EqGoesOn(src, env, x, op, S64, Text(s), Str, CmpString(EQ), mem, v, w, written, end);
    EqIsSmooth(x, op, mem, Point(rows[3], [v]), end[0]);
    ps := AccessPath(x, op, mem) + ([Point(rows[3], [v])] + end);
  }

  /** A string compared with an integer field: an error as written, and in the code a comparison
      that reads the integer as a string. */
  lemma StringOverIntegerFails(src: Source, env: Env, x: Access, s: seq<byte>, mem: Mem, m: word, e: seq<Cell>)
    requires |e| == STACK_LEN
    requires LoadTarget(x.ot) == Some((S64, LoadTyped(x.ot)))
    requires Ready(src, env, x, mem) && LoadMem(x.ot, mem) == Ok(VInt(m))
    requires forall k :: 0 <= k < |s| ==> s[k] != 0
    ensures var rows := MixedRows(x, s);
            && IsLinked(Code(rows), src) && FinalCode(Code(rows), src) == Final(rows)
            && FinalGids(Code(rows), src) == map[0 := GidOf(x)]
            && Run(env, Final(rows), RState(0, [])) == RegRun(env, Final(rows), 0, RegInit(e)) == Wild
            && RefRun(env, Code(rows), src.symtab, RState(0, [])) == Error
  {
    EqTable(src, x, LoadTyped(x.ot), S64, Text(s), Str, CmpString(EQ));
    var ps := MixedEnds(src, env, x, s, mem, m, false);
    var qs := MixedEnds(src, env, x, s, mem, m, true);
    TableEnds(src, MixedRows(x, s), env, ps, Wild, qs, Error, e);
  }

  // An event on which both fail

  /** The integer field or the unsigned enumeration of a single-field event. */
  lemma EventShows(env: Env, ot: ObjType, ty: FieldType, w: word)
    requires (ty == Integer(true) && ot == S64Obj) || (ty == Enum(false) && ot == UnsignedEnum)
    requires env.Valid() && env.fields == SourceOf(ty).fields && env.slots[0] == IntSlot(w)
    requires env.gids == map[0 := GidOf(AccessOf(ot, ty))]
    ensures Ready(SourceOf(ty), env, AccessOf(ot, ty), SlotMem(IntSlot(w)))
    ensures LoadMem(ot, SlotMem(IntSlot(w))) == Ok(VInt(w))
  {
    SingleResolves(ot, ty);
  }

  // A glob comparator that came in specialized

  /** An integer, a glob, EQ_STAR_GLOB_STRING, RETURN. */
  function GlobRows(n: nat, s: seq<byte>): seq<Row> {
    [Line(0, Num64(n), Num64(n), [], []),
     Line(9, Pattern(s), Pattern(s), [S64], [Plain(S64)]),
     Line(11 + |s|, Op0(CmpGlob(false)), Op0(CmpGlob(false)), [S64, StarGlob], [Plain(S64), Plain(StarGlob)]),
     Line(12 + |s|, Op0(Return), Op0(Return), [S64], [Plain(S64)])]
  }

  lemma GlobTable(src: Source, n: nat, s: seq<byte>)
    requires n < MAX_DATA_LEN && forall k :: 0 <= k < |s| ==> s[k] != 0
    ensures IsTable(src, GlobRows(n, s))
  {
    var rows := GlobRows(n, s);
    GlobRow(src, rows[2], [rows[3]], false);
    PushRow(src, rows[1], [rows[2]] + [rows[3]], StarGlob, Plain(StarGlob));
    PushRow(src, rows[0], [rows[1]] + ([rows[2]] + [rows[3]]), S64, Plain(S64));
    assert rows == [rows[0]] + ([rows[1]] + ([rows[2]] + [rows[3]]));
  }

  lemma GlobEnds(env: Env, symtab: seq<byte>, n: nat, s: seq<byte>, written: bool) returns (ps: seq<Point>)
    requires env.Valid() && n < MAX_DATA_LEN
    ensures Ending(env, symtab, written, GlobRows(n, s), ps, Wild)
    ensures Clashes(ps)
  {
    var rows, v, w := GlobRows(n, s), VInt(n), VStr(StrReg(s, GlobLiteral));
    var p, q, end := Point(rows[0], []), Point(rows[1], [v]), [Point(rows[2], [v, w])];
    PushPath(env, symtab, written, rows, q, w, end);
    PushPath(env, symtab, written, rows, p, v, [q] + end);
    ps := [p] + ([q] + end);
  }

  /** A glob comparator is accepted with one glob and an integer, which it then takes for a string;
      in the registers it finds whatever the fresh array holds in the integer's place. */
  lemma GlobComparatorFails(src: Source, env: Env, n: nat, s: seq<byte>, e: seq<Cell>)
    requires |e| == STACK_LEN && !e[2].u.Chars?
    requires env.Valid() && n < MAX_DATA_LEN && forall k :: 0 <= k < |s| ==> s[k] != 0
    ensures var rows := GlobRows(n, s);
            && IsLinked(Code(rows), src) && FinalCode(Code(rows), src) == Final(rows)
            && Run(env, Final(rows), RState(0, [])) == RegRun(env, Final(rows), 0, RegInit(e)) == Wild
  {
    GlobTable(src, n, s);
    var ps := GlobEnds(env, src.symtab, n, s, false);
    var qs := GlobEnds(env, src.symtab, n, s, true);
    TableEnds(src, GlobRows(n, s), env, ps, Wild, qs, Wild, e);
  }

  // Two literals that end with a lone backslash

  /** A string, a string, EQ, RETURN. */
  function DanglingRows(s: seq<byte>, t: seq<byte>): seq<Row> {
    var n := 2 + |s|;
    [Line(0, Text(s), Text(s), [], []),
     Line(n, Text(t), Text(t), [Str], [Plain(Str)]),
     Line(n + 2 + |t|, Op0(Cmp(EQ)), Op0(CmpString(EQ)), [Str, Str], [Plain(Str), Plain(Str)]),
     Line(n + 3 + |t|, Op0(Return), Op0(Return), [S64], [Plain(S64)])]
  }

  lemma DanglingTable(src: Source, s: seq<byte>, t: seq<byte>)
    requires (forall k :: 0 <= k < |s| ==> s[k] != 0) && forall k :: 0 <= k < |t| ==> t[k] != 0
    ensures IsTable(src, DanglingRows(s, t))
  {
    var rows := DanglingRows(s, t);
    CompareRow(src, rows[2], [rows[3]], EQ, CmpString(EQ));
    PushRow(src, rows[1], [rows[2]] + [rows[3]], Str, Plain(Str));
    PushRow(src, rows[0], [rows[1]] + ([rows[2]] + [rows[3]]), Str, Plain(Str));
    assert rows == [rows[0]] + ([rows[1]] + ([rows[2]] + [rows[3]]));
  }

  lemma DanglingEnds(env: Env, symtab: seq<byte>, s: seq<byte>, t: seq<byte>, written: bool) returns (ps: seq<Point>)
    requires env.Valid() && StrCmp(StrReg(s, PlainLiteral), StrReg(t, PlainLiteral)) == None
    ensures Ending(env, symtab, written, DanglingRows(s, t), ps, Wild)
    ensures |ps| == 3 && (forall j :: 0 <= j < 3 ==> Quiet(ps[j]))
    ensures ps[2] == Point(DanglingRows(s, t)[2], [PlainText(s), PlainText(t)])
  {
    var rows, v, w := DanglingRows(s, t), PlainText(s), PlainText(t);
    var p, q, end := Point(rows[0], []), Point(rows[1], [v]), [Point(rows[2], [v, w])];
    PushPath(env, symtab, written, rows, q, w, end);
    PushPath(env, symtab, written, rows, p, v, [q] + end);
    ps := [p] + ([q] + end);
  }

  lemma OverreadInRegisters(env: Env, i: Insn, pc: nat, r: Regs, s: StrReg, t: StrReg)
    requires env.Valid() && Represents(r, [VStr(s), VStr(t)]) && i.op.CmpString? && StrCmp(s, t) == None
    ensures RegInsn(env, i, pc, r) == Stop(Wild)
  {
    var vs := [VStr(s), VStr(t)];
    assert Keeps(r, |vs|, 0, vs[0]) && Keeps(r, |vs|, 1, vs[1]);
  }

  lemma DanglingRegisters(env: Env, code: seq<byte>, symtab: seq<byte>, s: seq<byte>, t: seq<byte>, e: seq<Cell>)
    requires env.Valid() && StrCmp(StrReg(s, PlainLiteral), StrReg(t, PlainLiteral)) == None && |e| == STACK_LEN
    requires forall a :: a in DanglingRows(s, t) ==> Stands(code, a.pc, a.out)
    ensures RegRun(env, code, 0, RegInit(e)) == Wild
  {
    var rows := DanglingRows(s, t);
    var ps := DanglingEnds(env, symtab, s, t, false);
    FreshIsEmpty(e);
    var r := PathInRegisters(env, code, symtab, rows, ps, 0, RegInit(e));
    assert rows[2] in rows;
    OverreadInRegisters(env, rows[2].out, rows[2].pc, r, StrReg(s, PlainLiteral), StrReg(t, PlainLiteral));
    RegRunTurn(env, code, rows[2], r, Stop(Wild));
  }

  /** Two literals that read alike up to a lone backslash at the end of each: a program without any
      field, whose comparison goes on behind both literals. */
  lemma DanglingLiteralsOverread(src: Source, env: Env, s: seq<byte>, t: seq<byte>, e: seq<Cell>)
    requires env.Valid() && |e| == STACK_LEN && DangleAlike(s, t)
    requires (forall k :: 0 <= k < |s| ==> s[k] != 0) && forall k :: 0 <= k < |t| ==> t[k] != 0
    ensures var rows := DanglingRows(s, t);
            && IsLinked(Code(rows), src) && FinalCode(Code(rows), src) == Final(rows)
            && Run(env, Final(rows), RState(0, [])) == RegRun(env, Final(rows), 0, RegInit(e)) == Wild
            && RefRun(env, Code(rows), src.symtab, RState(0, [])) == Wild
  {
    var rows := DanglingRows(s, t);
    DanglingTable(src, s, t);
    DanglingOrder(s, t);
    var ps := DanglingEnds(env, src.symtab, s, t, false);
    var qs := DanglingEnds(env, src.symtab, s, t, true);
    TableRuns(src, rows, env, ps, Wild, qs, Wild);
    TableLinked(src, rows);
    DanglingRegisters(env, Final(rows), src.symtab, s, t, e);
  }

  /** The smallest case: one backslash in each. */
  lemma LoneBackslashes()
    ensures DangleAlike([92], [92])
  {
  }

  // The registers

  /** An integer, a string, RETURN. */
  function StaleRows(n: nat, s: seq<byte>): seq<Row> {
    [Line(0, Num64(n), Num64(n), [], []),
     Line(9, Text(s), Text(s), [S64], [Plain(S64)]),
     Line(11 + |s|, Op0(Return), Op0(Return), [S64, Str], [Plain(S64), Plain(Str)])]
  }

  lemma StaleTable(src: Source, n: nat, s: seq<byte>)
    requires n < MAX_DATA_LEN && forall k :: 0 <= k < |s| ==> s[k] != 0
    ensures IsTable(src, StaleRows(n, s))
  {
    var rows := StaleRows(n, s);
    PushRow(src, rows[1], [rows[2]], Str, Plain(Str));
    PushRow(src, rows[0], [rows[1]] + [rows[2]], S64, Plain(S64));
    assert rows == [rows[0]] + ([rows[1]] + [rows[2]]);
  }

  lemma StaleEnds(env: Env, symtab: seq<byte>, n: nat, s: seq<byte>, written: bool) returns (ps: seq<Point>)
    requires env.Valid() && n < MAX_DATA_LEN
    ensures Ending(env, symtab, written, StaleRows(n, s), ps, Error)
  {
    var rows, v, w := StaleRows(n, s), VInt(n), PlainText(s);
    var p, q, end := Point(rows[0], []), Point(rows[1], [v]), [Point(rows[2], [v, w])];
    PushPath(env, symtab, written, rows, q, w, end);
    PushPath(env, symtab, written, rows, p, v, [q] + end);
    ps := [p] + ([q] + end);
  }

  lemma NumberLoaded(env: Env, n: nat, e: seq<Cell>)
    requires env.Valid() && n < MAX_DATA_LEN && |e| == STACK_LEN
    ensures RegInsn(env, Num64(n), 0, RegInit(e)) == Go(9, SetInt(PushRegs(RegInit(e)), n, S64))
  {
  }

  lemma TextLoaded(env: Env, s: seq<byte>, pc: nat, r: Regs)
    requires env.Valid() && Shaped(r) && r.top < STACK_LEN - 1
    ensures RegInsn(env, Text(s), pc, r) == Go(pc + 2 + |s|, PushCell(r, Chars(StrReg(s, PlainLiteral)), None))
  {
  }

  lemma StaleRegisters(env: Env, code: seq<byte>, n: nat, s: seq<byte>, e: seq<Cell>)
    requires env.Valid() && n < MAX_DATA_LEN && |e| == STACK_LEN
    requires forall a :: a in StaleRows(n, s) ==> Stands(code, a.pc, a.out)
    ensures RegRun(env, code, 0, RegInit(e)) == if n != 0 then Accept else Reject
  {
    var rows := StaleRows(n, s);
    var r1 := SetInt(PushRegs(RegInit(e)), n, S64);
    var r2 := PushCell(r1, Chars(StrReg(s, PlainLiteral)), None);
    assert rows[0] in rows && rows[1] in rows && rows[2] in rows;
    NumberLoaded(env, n, e);
    RegRunTurn(env, code, rows[0], RegInit(e), Go(9, r1));
    TextLoaded(env, s, 9, r1);
    RegRunTurn(env, code, rows[1], r1, Go(11 + |s|, r2));
    RegRunTurn(env, code, rows[2], r2, Stop(if n != 0 then Accept else Reject));
  }

  /** A string on top is no verdict, yet RETURN reads the registers of the integer below it: the
      program that should fail accepts or rejects. */
  lemma StaleVerdict(src: Source, env: Env, n: nat, s: seq<byte>, e: seq<Cell>)
    requires env.Valid() && n < MAX_DATA_LEN && |e| == STACK_LEN && forall k :: 0 <= k < |s| ==> s[k] != 0
    ensures var rows := StaleRows(n, s);
            && IsLinked(Code(rows), src) && FinalCode(Code(rows), src) == Final(rows)
            && Run(env, Final(rows), RState(0, [])) == RefRun(env, Code(rows), src.symtab, RState(0, [])) == Error
            && RegRun(env, Final(rows), 0, RegInit(e)) == if n != 0 then Accept else Reject
  {
    var rows := StaleRows(n, s);
    StaleTable(src, n, s);
    var ps := StaleEnds(env, src.symtab, n, s, false);
    var qs := StaleEnds(env, src.symtab, n, s, true);
    TableRuns(src, rows, env, ps, Error, qs, Error);
    TableLinked(src, rows);
    StaleRegisters(env, Final(rows), n, s, e);
  }

  /** An integer, BIT_NOT, RETURN. */
  function NotRows(n: nat): seq<Row> {
    [Line(0, Num64(n), Num64(n), [], []),
     Line(9, Op0(BitNot), Op0(BitNot), [S64], [Plain(S64)]),
     Line(10, Op0(Return), Op0(Return), [U64], [Plain(S64)])]
  }

  lemma NotTable(src: Source, n: nat)
    requires n < MAX_DATA_LEN
    ensures IsTable(src, NotRows(n))
  {
    var rows := NotRows(n);
    BitNotRow(src, rows[1], [rows[2]]);
    PushRow(src, rows[0], [rows[1]] + [rows[2]], S64, Plain(S64));
    assert rows == [rows[0]] + ([rows[1]] + [rows[2]]);
  }

  lemma NotVisited(src: Source, code: seq<byte>, n: nat)
    requires n < MAX_DATA_LEN && IsTable(src, NotRows(n)) && forall a :: a in NotRows(n) ==> Stands(code, a.pc, a.i)
    ensures Visits(code, src.symtab, INIT, VState(10, [U64], map[]))
  {
    var rows := NotRows(n);
    assert GoesAt(src, rows, 0) && GoesAt(src, rows, 1) && rows[0] in rows && rows[1] in rows;
    RowValidated(src, code, rows[0], rows[1]);
    RowValidated(src, code, rows[1], rows[2]);
    VisitsTurn(code, src.symtab, Before(rows[1]), Before(rows[2]), Before(rows[2]));
    VisitsTurn(code, src.symtab, Before(rows[0]), Before(rows[1]), Before(rows[2]));
  }

  lemma NumberComplemented(env: Env, n: word, r: Regs)
    requires env.Valid() && Shaped(r) && r.top > STACK_EMPTY && r.ax == Num(n)
    ensures RegInsn(env, Op0(BitNot), 9, r) == Go(10, SetInt(r, MODULUS - 1 - n, S64))
  {
  }

  lemma NotRegisters(env: Env, code: seq<byte>, n: nat, e: seq<Cell>)
    requires env.Valid() && n < MAX_DATA_LEN && |e| == STACK_LEN
    requires forall a :: a in NotRows(n) ==> Stands(code, a.pc, a.out)
    ensures var r := SetInt(PushRegs(RegInit(e)), n, S64);
            && RegStep(env, code, 0, RegInit(e)) == Go(9, r)
            && RegStep(env, code, 9, r) == Go(10, SetInt(r, MODULUS - 1 - n, S64))
  {
    var rows, r := NotRows(n), SetInt(PushRegs(RegInit(e)), n, S64);
    assert rows[0] in rows && rows[1] in rows;
    NumberLoaded(env, n, e);
    RegStepAt(env, code, rows[0], RegInit(e));
    NumberComplemented(env, n, r);
    RegStepAt(env, code, rows[1], r);
  }

  /** The validator takes a complement for unsigned, the interpreter marks it signed. */
  lemma ComplementTurnsSigned(src: Source, env: Env, n: nat, e: seq<Cell>)
    requires env.Valid() && n < MAX_DATA_LEN && |e| == STACK_LEN
    ensures var code, r := Code(NotRows(n)), SetInt(PushRegs(RegInit(e)), n, S64);
            && IsLinked(code, src) && FinalCode(code, src) == Final(NotRows(n))
            && Visits(code, src.symtab, INIT, VState(10, [U64], map[]))
            && RegStep(env, Final(NotRows(n)), 0, RegInit(e)) == Go(9, r)
            && RegStep(env, Final(NotRows(n)), 9, r) == Go(10, SetInt(r, MODULUS - 1 - n, S64))
  {
    NotTable(src, n);
    TableLinked(src, NotRows(n));
    NotVisited(src, Code(NotRows(n)), n);
    NotRegisters(env, Final(NotRows(n)), n, e);
  }
}
