/** Programs as tables: every instruction with its rewrite, its offset and the states of both passes
    before it. A table is checked row by row, and is then a linked program with its runs. */
module Tables {
  import opened Words
  import opened Opcodes
  import opened Validator
  import opened Fields
  import opened Specializer
  import opened Interpreter
  import opened Linked
  import opened StringCompare
  import opened Preservation
  import opened Programs

  function Op0(op: Op): Insn { Insn(op, 0, []) }
  function Num64(n: nat): Insn { Insn(LoadS64, n, []) }
  function Text(s: seq<byte>): Insn { Insn(LoadString, 0, s) }
  function Pattern(s: seq<byte>): Insn { Insn(LoadStarGlob, 0, s) }
  function PlainText(s: seq<byte>): Value { VStr(StrReg(s, PlainLiteral)) }

  const EMPTY := Arena(map[], 0)

  /** An instruction, its rewrite, its offset, and the states of both passes before it. */
  datatype Row = Row(pc: nat, i: Insn, out: Insn, ts: seq<RegType>, mp: MergeTable, es: seq<Entry>, arena: Arena)

  function Originals(rows: seq<Row>): (r: seq<Insn>)
    ensures |r| == |rows| && forall k :: 0 <= k < |rows| ==> r[k] == rows[k].i
  {
    seq(|rows|, k requires 0 <= k < |rows| => rows[k].i)
  }

  function Finals(rows: seq<Row>): (r: seq<Insn>)
    ensures |r| == |rows| && forall k :: 0 <= k < |rows| ==> r[k] == rows[k].out
  {
    seq(|rows|, k requires 0 <= k < |rows| => rows[k].out)
  }

  /** A row of a program without jumps and without field accesses. */
  function Line(pc: nat, i: Insn, out: Insn, ts: seq<RegType>, es: seq<Entry>): Row {
    Row(pc, i, out, ts, map[], es, EMPTY)
  }

  predicate Bare(i: Insn) { i.arg == 0 && i.str == [] && OperandSize(i.op) == 0 && !IsStringOp(i.op) }

  /** Both passes go from one row to the next. */
  ghost predicate Goes(src: Source, a: Row, b: Row) {
    && InRange(Some(a.i), src.symtab) && !IsReturn(a.i.op) && Encodable(a.i)
    && var n := VInsn(a.i, VState(a.pc, a.ts, a.mp));
    && n.Next? && n.st.pc == b.pc && n.st.stack == b.ts && n.st.mp == b.mp
    && var x := SpecInsn(src, a.i, a.es, a.arena);
    && x.Some? && Insn(x.value.op, x.value.arg, a.i.str) == a.out && x.value.stack == b.es && x.value.arena == b.arena
  }

  /** A RETURN that the validator takes. */
  ghost predicate Ends(a: Row) {
    && Bare(a.i) && a.i.op == Return && a.out == a.i && |a.ts| >= 1 && Ax(a.ts) != StarGlob
    && (a.pc in a.mp ==> a.mp[a.pc] == a.ts) && a.mp - {a.pc} == map[]
  }

  ghost predicate GoesAt(src: Source, rows: seq<Row>, k: nat)
    requires k + 1 < |rows|
  {
    Goes(src, rows[k], rows[k + 1])
  }

  ghost predicate IsTable(src: Source, rows: seq<Row>) {
    rows != [] && Ends(rows[|rows| - 1]) && forall k :: 0 <= k < |rows| - 1 ==> GoesAt(src, rows, k)
  }

  lemma TableTail(src: Source, rows: seq<Row>)
    requires IsTable(src, rows) && |rows| > 1
    ensures IsTable(src, rows[1..]) && Goes(src, rows[0], rows[1])
    ensures Originals(rows)[1..] == Originals(rows[1..]) && Finals(rows)[1..] == Finals(rows[1..])
  {
    var rest := rows[1..];
    forall k | 0 <= k < |rest| - 1 ensures GoesAt(src, rest, k) {
      assert GoesAt(src, rows, k + 1);
    }
    assert GoesAt(src, rows, 0);
  }

  lemma TableCons(src: Source, a: Row, rest: seq<Row>)
    requires IsTable(src, rest) && Goes(src, a, rest[0])
    ensures IsTable(src, [a] + rest)
  {
    var rows := [a] + rest;
    forall k | 0 <= k < |rows| - 1 ensures GoesAt(src, rows, k) {
      if k > 0 {
        assert GoesAt(src, rest, k - 1);
      }
    }
  }

  lemma {:induction false} TablePasses(src: Source, rows: seq<Row>)
    requires IsTable(src, rows)
    ensures AllEncodable(Originals(rows))
    ensures Passes(Originals(rows), src.symtab, VState(rows[0].pc, rows[0].ts, rows[0].mp))
  {
    if |rows| > 1 {
      TableTail(src, rows);
      TablePasses(src, rows[1..]);
    }
  }

  lemma {:induction false} TableSpecialized(src: Source, rows: seq<Row>)
    requires IsTable(src, rows)
    ensures Specialized(src, Originals(rows), rows[0].es, rows[0].arena) == Some((Finals(rows), rows[|rows| - 1].arena))
  {
    if |rows| == 1 {
      assert Finals(rows) == Originals(rows);
    } else {
      TableTail(src, rows);
      TableSpecialized(src, rows[1..]);
      assert Finals(rows) == [rows[0].out] + Finals(rows[1..]);
    }
  }

  lemma {:induction false} TableOffsets(src: Source, rows: seq<Row>, k: nat)
    requires IsTable(src, rows) && k < |rows|
    ensures rows[k].pc == rows[0].pc + Offset(Originals(rows), k)
    ensures Offset(Finals(rows), k) == Offset(Originals(rows), k)
    decreases k
  {
    if k > 0 {
      TableTail(src, rows);
      TableOffsets(src, rows[1..], k - 1);
      RewriteEncodes(src, rows[0].i, rows[0].es, rows[0].arena);
    }
  }

  function Code(rows: seq<Row>): seq<byte> { Assemble(Originals(rows)) }
  function Final(rows: seq<Row>): seq<byte> { Assemble(Finals(rows)) }

  predicate Starts(a: Row) { a.pc == 0 && a.ts == [] && a.mp == map[] && a.es == [] && a.arena == Arena(map[], 0) }

  /** A table from the start is a linked program: its bytes, its final bytes, its lookup data, and
      what stands in both at every offset. */
  lemma TableLinked(src: Source, rows: seq<Row>)
    requires IsTable(src, rows) && Starts(rows[0])
    ensures IsLinked(Code(rows), src)
    ensures FinalCode(Code(rows), src) == Final(rows)
    ensures FinalGids(Code(rows), src) == rows[|rows| - 1].arena.gids
    ensures forall k :: 0 <= k < |rows| ==>
              && Stands(Code(rows), rows[k].pc, rows[k].i)
              && Stands(Final(rows), rows[k].pc, rows[k].out)
  {
    TablePasses(src, rows);
    TableSpecialized(src, rows);
    ListLinked(src, Originals(rows));
    forall k | 0 <= k < |rows|
      ensures Stands(Code(rows), rows[k].pc, rows[k].i)
      ensures Stands(Final(rows), rows[k].pc, rows[k].out)
    {
      TableOffsets(src, rows, k);
      InsnHeld(Originals(rows), k, rows[k].pc);
      InsnHeld(Finals(rows), k, rows[k].pc);
    }
  }

  function Before(a: Row): VState { VState(a.pc, a.ts, a.mp) }

  /** The states of the two passes are those before a row. */
  ghost predicate AtRow(a: Row, v: VState, s: SState) {
    v.pc == a.pc && v.stack == a.ts && v.mp == a.mp && s.stack == a.es && s.arena == a.arena
  }

  lemma RowValidated(src: Source, code: seq<byte>, a: Row, b: Row)
    requires Goes(src, a, b) && Stands(code, a.pc, a.i)
    ensures VStep(code, src.symtab, Before(a)) == Next(Before(b))
  {
    assert VStep(code, src.symtab, Before(a)) == VInsn(a.i, Before(a));
  }

  lemma NextRow(src: Source, code: seq<byte>, a: Row, b: Row, v: VState, s: SState)
    requires Goes(src, a, b) && Stands(code, a.pc, a.i) && AtRow(a, v, s) && InStep(code, src, v, s)
    ensures VStep(code, src.symtab, v).Next? && SStep(src, s).Some?
    ensures AtRow(b, VStep(code, src.symtab, v).st, SStep(src, s).value)
  {
    DecodeSuffix(code, s.code, v.pc);
    assert v == Before(a);
    RowValidated(src, code, a, b);
    InStepNext(code, src, v, s);
  }

  /** The passes go through the rows of a table and through nothing else. */
  lemma {:induction false} TableReached(src: Source, code: seq<byte>, rows: seq<Row>, k: nat,
                                        v: VState, s: SState, v': VState, s': SState) returns (j: nat)
    requires IsTable(src, rows) && k < |rows| && AtRow(rows[k], v, s)
    requires forall k :: 0 <= k < |rows| ==> Stands(code, rows[k].pc, rows[k].i)
    requires InStep(code, src, v, s) && Reaches(code, src, v, s, v', s')
    ensures j < |rows| && AtRow(rows[j], v', s')
    decreases |rows| - k
  {
    if v == v' && s == s' {
      return k;
    }
    if k == |rows| - 1 {
      assert false;
    }
    assert GoesAt(src, rows, k);
    NextRow(src, code, rows[k], rows[k + 1], v, s);
    InStepNext(code, src, v, s);
    j := TableReached(src, code, rows, k + 1, VStep(code, src.symtab, v).st, SStep(src, s).value, v', s');
  }

  lemma VisitsTurn(code: seq<byte>, symtab: seq<byte>, a: VState, b: VState, c: VState)
    requires a.pc < |code| && VStep(code, symtab, a) == Next(b) && Visits(code, symtab, b, c)
    ensures Visits(code, symtab, a, c)
  {
  }

  // Rows by kind of instruction

  /** The merge table and the offset after a row that is no jump. */
  ghost predicate Passed(a: Row, b: Row) {
    (a.pc in a.mp ==> a.mp[a.pc] == a.ts) && b.pc == a.pc + Size(a.i) && b.mp == a.mp - {a.pc}
  }

  /** What a literal or a root pushes on the stacks of both passes. */
  ghost predicate Pushes(i: Insn, t: RegType, e: Entry) {
    match i.op
    case LoadString => i.arg == 0 && t == Str && e == Plain(Str) && forall k :: 0 <= k < |i.str| ==> i.str[k] != 0
    case LoadStarGlob =>
      i.arg == 0 && t == StarGlob && e == Plain(StarGlob) && forall k :: 0 <= k < |i.str| ==> i.str[k] != 0
    case LoadS64 => i.arg < MAX_DATA_LEN && i.str == [] && t == S64 && e == Plain(S64)
    case GetPayloadRoot => Bare(i) && t == Ptr && e == Entry(Ptr, RootPayload)
    case _ => false
  }

  lemma PushRow(src: Source, a: Row, rest: seq<Row>, t: RegType, e: Entry)
    requires IsTable(src, rest)
    requires Passed(a, rest[0]) && Pushes(a.i, t, e) && a.out == a.i && |a.ts| < STACK_LEN && |a.es| < STACK_LEN
    requires rest[0].ts == a.ts + [t] && rest[0].es == a.es + [e] && rest[0].arena == a.arena
    ensures IsTable(src, [a] + rest)
  {
    OperandRange();
    TableCons(src, a, rest);
  }

  lemma CompareRow(src: Source, a: Row, rest: seq<Row>, c: CmpOp, op: Op)
    requires IsTable(src, rest)
    requires Passed(a, rest[0]) && Bare(a.i) && a.i.op == Cmp(c) && a.out == Insn(op, 0, [])
    requires |a.ts| >= 2 && CompareOk(Ax(a.ts), Bx(a.ts), c) && Bx(a.ts) != Ptr && rest[0].ts == SetAx(Pop(a.ts), S64)
    requires |a.es| >= 2 && PickCompare(c, Ax(a.es).ty, Bx(a.es).ty) == Some(op)
    requires rest[0].es == (if c == LE then SetAx(a.es, Plain(S64)) else SetAx(Pop(a.es), Plain(S64)))
    requires rest[0].arena == a.arena
    ensures IsTable(src, [a] + rest)
  {
    TableCons(src, a, rest);
  }

  /** GET_SYMBOL on the payload root. */
  lemma SymbolRow(src: Source, a: Row, rest: seq<Row>, name: seq<byte>, k: nat, off: nat, ot: ObjType, at: nat)
    requires IsTable(src, rest)
    requires Passed(a, rest[0]) && a.i == Insn(GetSymbol, a.i.arg, [])
    requires a.i.arg < MAX_DATA_LEN && a.out == Insn(GetIndexU16, at, [])
    requires SymbolAt(src.symtab, a.i.arg) == Some(name)
    requires Lookup(src.fields, name) == Some((k, off)) && k < |src.fields|
    requires ObjTypeOf(src.fields[k].ty, false) == Some(ot)
    requires PushData(a.arena, Gid(off, 0, ot, 0, Some(src.fields[k].ty))) == Some((at, rest[0].arena))
    requires |a.ts| >= 1 && Ax(a.ts) == Ptr && rest[0].ts == a.ts
    requires |a.es| >= 1 && Ax(a.es) == Entry(Ptr, RootPayload)
    requires rest[0].es == SetAx(a.es, Entry(Ptr, ObjectLoad(ot, src.fields[k].ty)))
    ensures IsTable(src, [a] + rest)
  {
    OperandRange();
    TableCons(src, a, rest);
  }

  lemma FieldRow(src: Source, a: Row, rest: seq<Row>, ot: ObjType, t: RegType, op: Op)
    requires IsTable(src, rest)
    requires Passed(a, rest[0]) && Bare(a.i) && a.i.op == LoadField && a.out == Insn(op, 0, [])
    requires LoadTarget(ot) == Some((t, op)) && |a.ts| >= 1 && Ax(a.ts) == Ptr && rest[0].ts == SetAx(a.ts, Unknown)
    requires |a.es| >= 1 && Ax(a.es).load.Object? && Ax(a.es).load.ot == ot && rest[0].es == SetAx(a.es, Plain(t))
    requires rest[0].arena == a.arena
    ensures IsTable(src, [a] + rest)
  {
    TableCons(src, a, rest);
  }

  /** A constant index into a sequence. */
  lemma IndexRow(src: Source, a: Row, rest: seq<Row>, e: Elem, text: bool, at: nat)
    requires IsTable(src, rest)
    requires Passed(a, rest[0]) && a.i == Insn(GetIndexU64, a.i.arg, []) && a.i.arg < MODULUS
    requires a.out == Insn(GetIndexU64, at, []) && Bytewise(e)
    requires PushData(a.arena, ElemGid(e, a.i.arg)) == Some((at, rest[0].arena))
    requires |a.ts| >= 1 && Ax(a.ts) == Ptr && rest[0].ts == a.ts
    requires |a.es| >= 1 && Ax(a.es) == Entry(Ptr, Object(SequenceObj, Some(Sequence(e, text))))
    requires rest[0].es == SetAx(a.es, Entry(Ptr, Object(ElemObjType(e).value, None)))
    ensures IsTable(src, [a] + rest)
  {
    assert Pow256(8) == MODULUS;
    TableCons(src, a, rest);
  }

  lemma BitNotRow(src: Source, a: Row, rest: seq<Row>)
    requires IsTable(src, rest)
    requires Passed(a, rest[0]) && Bare(a.i) && a.i.op == BitNot && a.out == a.i
    requires |a.ts| >= 1 && IsIntOrUnknown(Ax(a.ts)) && rest[0].ts == SetAx(a.ts, U64) && rest[0].es == a.es
    requires rest[0].arena == a.arena
    ensures IsTable(src, [a] + rest)
  {
    TableCons(src, a, rest);
  }

  lemma GlobRow(src: Source, a: Row, rest: seq<Row>, ne: bool)
    requires IsTable(src, rest)
    requires Passed(a, rest[0]) && Bare(a.i) && a.i.op == CmpGlob(ne) && a.out == a.i
    requires |a.ts| >= 2 && (Ax(a.ts) == StarGlob || Bx(a.ts) == StarGlob) && Bx(a.ts) != Ptr
    requires rest[0].ts == SetAx(Pop(a.ts), S64) && |a.es| >= 2 && rest[0].es == SetAx(Pop(a.es), Plain(S64))
    requires rest[0].arena == a.arena
    ensures IsTable(src, [a] + rest)
  {
    TableCons(src, a, rest);
  }

  lemma PlusRow(src: Source, a: Row, rest: seq<Row>)
    requires IsTable(src, rest)
    requires Passed(a, rest[0]) && Bare(a.i) && a.i.op == Unary(Plus) && a.out == Insn(UnaryS64(Plus), 0, [])
    requires |a.ts| >= 1 && IsIntOrUnknown(Ax(a.ts)) && rest[0].ts == SetAx(a.ts, Unknown)
    requires |a.es| >= 1 && Ax(a.es).ty == S64 && rest[0].es == a.es && rest[0].arena == a.arena
    ensures IsTable(src, [a] + rest)
  {
    TableCons(src, a, rest);
  }

  lemma JumpRow(src: Source, a: Row, rest: seq<Row>)
    requires IsTable(src, rest)
    requires a.i.op.Logical? && a.i.str == [] && a.pc < a.i.arg < MAX_DATA_LEN
    requires a.out == a.i && rest[0].pc == a.pc + Size(a.i)
    requires (a.pc in a.mp ==> a.mp[a.pc] == a.ts) && a.i.arg !in a.mp && rest[0].mp == (a.mp - {a.pc})[a.i.arg := a.ts]
    requires |a.ts| >= 1 && IsInt(Ax(a.ts)) && rest[0].ts == Pop(a.ts)
    requires |a.es| >= 1 && rest[0].es == Pop(a.es) && rest[0].arena == a.arena
    ensures IsTable(src, [a] + rest)
  {
    OperandRange();
    TableCons(src, a, rest);
  }

  // Runs through a table

  /** Before a row, with values on the stack. */
  datatype Point = Point(a: Row, vs: seq<Value>)

  /** The turn of the program as written, or of the one it became. */
  ghost function TurnOf(env: Env, symtab: seq<byte>, written: bool, p: Point): Turn
    requires env.Valid()
  {
    if written then RefInsn(env, symtab, p.a.i, p.a.pc, p.vs) else StepInsn(env, p.a.out, p.a.pc, p.vs)
  }

  ghost predicate Moves(env: Env, symtab: seq<byte>, written: bool, p: Point, q: Point)
    requires env.Valid()
  {
    var t := TurnOf(env, symtab, written, p);
    t.Goto? && p.a.pc < t.pc && t.pc == q.a.pc && t.stack == q.vs
  }

  ghost predicate MovesAt(env: Env, symtab: seq<byte>, written: bool, ps: seq<Point>, k: nat)
    requires env.Valid() && k + 1 < |ps|
  {
    Moves(env, symtab, written, ps[k], ps[k + 1])
  }

  ghost predicate IsPath(env: Env, symtab: seq<byte>, written: bool, rows: seq<Row>, ps: seq<Point>)
    requires env.Valid()
  {
    && ps != [] && (forall k :: 0 <= k < |ps| ==> ps[k].a in rows)
    && forall k :: 0 <= k < |ps| - 1 ==> MovesAt(env, symtab, written, ps, k)
  }

  lemma PathCons(env: Env, symtab: seq<byte>, written: bool, rows: seq<Row>, p: Point, ps: seq<Point>)
    requires env.Valid() && p.a in rows
    requires IsPath(env, symtab, written, rows, ps) && Moves(env, symtab, written, p, ps[0])
    ensures IsPath(env, symtab, written, rows, [p] + ps)
  {
    forall k | 0 <= k < |ps| ensures MovesAt(env, symtab, written, [p] + ps, k) {
      if k > 0 {
        assert MovesAt(env, symtab, written, ps, k - 1);
      }
    }
  }

  lemma StepAt(env: Env, code: seq<byte>, symtab: seq<byte>, p: Point)
    requires env.Valid()
    ensures Stands(code, p.a.pc, p.a.out) ==> Step(env, code, RState(p.a.pc, p.vs)) == TurnOf(env, symtab, false, p)
    ensures Stands(code, p.a.pc, p.a.i) ==>
              RefStep(env, code, symtab, RState(p.a.pc, p.vs)) == TurnOf(env, symtab, true, p)
  {
  }

  /** A path of the program as it became that ends in a halt is a run. */
  lemma {:induction false} PathRuns(env: Env, code: seq<byte>, symtab: seq<byte>, rows: seq<Row>, ps: seq<Point>,
                                    k: nat, o: Outcome)
    requires env.Valid() && IsPath(env, symtab, false, rows, ps) && k < |ps|
    requires forall a :: a in rows ==> Stands(code, a.pc, a.out)
    requires TurnOf(env, symtab, false, ps[|ps| - 1]) == Halt(o)
    ensures Run(env, code, RState(ps[k].a.pc, ps[k].vs)) == o
    decreases |ps| - k
  {
    StepAt(env, code, symtab, ps[k]);
    if k < |ps| - 1 {
      assert MovesAt(env, symtab, false, ps, k);
      PathRuns(env, code, symtab, rows, ps, k + 1, o);
    }
  }

  /** And one of the program as written is its reading. */
  lemma {:induction false} PathReads(env: Env, code: seq<byte>, symtab: seq<byte>, rows: seq<Row>, ps: seq<Point>,
                                     k: nat, o: Outcome)
    requires env.Valid() && IsPath(env, symtab, true, rows, ps) && k < |ps|
    requires forall a :: a in rows ==> Stands(code, a.pc, a.i)
    requires TurnOf(env, symtab, true, ps[|ps| - 1]) == Halt(o)
    ensures RefRun(env, code, symtab, RState(ps[k].a.pc, ps[k].vs)) == o
    decreases |ps| - k
  {
    StepAt(env, code, symtab, ps[k]);
    if k < |ps| - 1 {
      assert MovesAt(env, symtab, true, ps, k);
      PathReads(env, code, symtab, rows, ps, k + 1, o);
    }
  }

  /** A path from the first row to a halt. */
  ghost predicate Ending(env: Env, symtab: seq<byte>, written: bool, rows: seq<Row>, ps: seq<Point>, o: Outcome)
    requires env.Valid()
  {
    && IsPath(env, symtab, written, rows, ps) && rows != [] && ps[0] == Point(rows[0], [])
    && TurnOf(env, symtab, written, ps[|ps| - 1]) == Halt(o)
  }

  lemma EndingAfter(env: Env, symtab: seq<byte>, written: bool, rows: seq<Row>, ps: seq<Point>, end: seq<Point>,
                    o: Outcome)
    requires env.Valid() && ps != [] && end != [] && IsPath(env, symtab, written, rows, ps + end)
    requires rows != [] && ps[0] == Point(rows[0], []) && TurnOf(env, symtab, written, end[|end| - 1]) == Halt(o)
    ensures Ending(env, symtab, written, rows, ps + end, o)
  {
    assert (ps + end)[|ps + end| - 1] == end[|end| - 1];
  }

  /** A table is a linked program; a path of either kind gives its run, or its reading as written. */
  lemma TableRuns(src: Source, rows: seq<Row>, env: Env, ps: seq<Point>, o: Outcome, qs: seq<Point>, o': Outcome)
    requires IsTable(src, rows) && Starts(rows[0]) && env.Valid()
    requires Ending(env, src.symtab, false, rows, ps, o) && Ending(env, src.symtab, true, rows, qs, o')
    ensures IsLinked(Code(rows), src) && FinalCode(Code(rows), src) == Final(rows)
    ensures FinalGids(Code(rows), src) == rows[|rows| - 1].arena.gids
    ensures Run(env, Final(rows), RState(0, [])) == o && RefRun(env, Code(rows), src.symtab, RState(0, [])) == o'
  {
    TableLinked(src, rows);
    PathRuns(env, Final(rows), src.symtab, rows, ps, 0, o);
    PathReads(env, Code(rows), src.symtab, rows, qs, 0, o');
  }

  // Paths by kind of instruction

  ghost predicate Loads(i: Insn, v: Value) {
    match i.op
    case LoadString => v == VStr(StrReg(i.str, PlainLiteral))
    case LoadStarGlob => v == VStr(StrReg(i.str, GlobLiteral))
    case LoadS64 => v == VInt(Word(i.arg))
    case GetPayloadRoot => v == VPtr(PayloadRoot)
    case _ => false
  }

  lemma PushPath(env: Env, symtab: seq<byte>, written: bool, rows: seq<Row>, p: Point, v: Value, ps: seq<Point>)
    requires env.Valid() && p.a in rows && IsPath(env, symtab, written, rows, ps)
    requires p.a.out == p.a.i && Loads(p.a.i, v) && |p.vs| < CAPACITY
    requires ps[0].a.pc == p.a.pc + Size(p.a.i) && ps[0].vs == p.vs + [v]
    ensures IsPath(env, symtab, written, rows, [p] + ps)
  {
    PathCons(env, symtab, written, rows, p, ps);
  }

  /** AND and OR on 0: the one jumps with its operand, the other drops it and goes on. */
  lemma ZeroPath(env: Env, symtab: seq<byte>, written: bool, rows: seq<Row>, p: Point, ps: seq<Point>)
    requires env.Valid() && p.a in rows && IsPath(env, symtab, written, rows, ps)
    requires p.a.out == p.a.i && p.a.i.op.Logical? && |p.vs| >= 1 && Ax(p.vs) == VInt(0) && p.a.pc < p.a.i.arg
    requires if p.a.i.op.isOr then ps[0].a.pc == p.a.pc + Size(p.a.i) && ps[0].vs == Pop(p.vs)
             else ps[0].a.pc == p.a.i.arg && ps[0].vs == p.vs
    ensures IsPath(env, symtab, written, rows, [p] + ps)
  {
    PathCons(env, symtab, written, rows, p, ps);
  }

  /** What holds of every row holds at every instruction the passes reach. */
  lemma ReachedRow(src: Source, rows: seq<Row>, v: VState, s: SState) returns (j: nat)
    requires IsTable(src, rows) && Starts(rows[0]) && IsLinked(Code(rows), src) && Reached(Code(rows), src, v, s)
    ensures j < |rows| && AtRow(rows[j], v, s) && Stands(Code(rows), v.pc, rows[j].i)
  {
    TableLinked(src, rows);
    LinkedInStep(Code(rows), src);
    j := TableReached(src, Code(rows), rows, 0, INIT, Start(Code(rows)), v, s);
  }

  /** The comparators of a table are those the passes reach. */
  lemma TableCompares(src: Source, rows: seq<Row>)
    requires IsTable(src, rows) && Starts(rows[0]) && forall k :: 0 <= k < |rows| ==> CompareSafe(rows[k].i, rows[k].es)
    ensures IsLinked(Code(rows), src)
    ensures forall v, s :: Reached(Code(rows), src, v, s) ==>
              && v.pc < |Code(rows)| && Decode(Code(rows), v.pc).Some?
              && CompareSafe(Decode(Code(rows), v.pc).value, s.stack)
  {
    TableLinked(src, rows);
    var code := Code(rows);
    forall v, s | Reached(code, src, v, s)
      ensures v.pc < |code| && Decode(code, v.pc).Some? && CompareSafe(Decode(code, v.pc).value, s.stack)
    {
      var j := ReachedRow(src, rows, v, s);
    }
  }

  lemma CodeLength(src: Source, rows: seq<Row>)
    requires IsTable(src, rows) && Starts(rows[0])
    ensures |Code(rows)| == rows[|rows| - 1].pc + 1
  {
    var n := |rows| - 1;
    TableOffsets(src, rows, n);
    AssembledSplit(Originals(rows), n);
    assert Originals(rows)[n + 1..] == [];
  }
}
