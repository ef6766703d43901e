/** A program that meets the specializer's comparators with operands of one class everywhere, and
    still loses its meaning: a jump brings an integer where the specializer has seen a string. */
module MergePoints {
  import opened Words
  import opened Opcodes
  import opened Validator
  import opened Fields
  import opened Specializer
  import opened Interpreter
  import opened Linked
  import opened Preservation
  import opened Registers
  import opened RegisterPaths
  import opened Programs
  import opened Tables
  import opened Accesses
  import Relocation

  const A: seq<byte> := [97]

  function Jump(isOr: bool, target: nat): Insn { Insn(Logical(isOr), target, []) }

  const MP1: MergeTable := map[35 := [Unknown, S64]]
  const MP2: MergeTable := MP1[54 := [U64]]
  const MP3: MergeTable := map[54 := [U64], 52 := [Unknown, S64]]
  const MP4: MergeTable := map[54 := [U64]]

  // The rows between the two accesses and after them, with the lookup data pushed so far.

  // The integer field and the integer 0; AND skips to 35
  function J3(a: Arena): Row { Row(5, Num64(0), Num64(0), [Unknown], map[], [Plain(S64)], a) }
  function J4(a: Arena): Row {
    Row(14, Jump(false, 35), Jump(false, 35), [Unknown, S64], map[], [Plain(S64), Plain(S64)], a)
  }
  function J5(a: Arena): Row { Row(17, Op0(BitNot), Op0(BitNot), [Unknown], MP1, [Plain(S64)], a) }
  function J6(a: Arena): Row { Row(18, Jump(false, 54), Jump(false, 54), [U64], MP1, [Plain(S64)], a) }

  // The string field and the integer 1
  function J10(a: Arena): Row { Row(26, Num64(1), Num64(1), [Unknown], MP2, [Plain(Str)], a) }

  // Here the integer meets the string; OR skips to 52
  function J11(a: Arena): Row {
    Row(35, Jump(true, 52), Jump(true, 52), [Unknown, S64], MP2, [Plain(Str), Plain(S64)], a)
  }
  function J12(a: Arena): Row { Row(38, Text(A), Text(A), [Unknown], MP3, [Plain(Str)], a) }
  function J13(a: Arena): Row {
    Row(41, Op0(Cmp(EQ)), Op0(CmpString(EQ)), [Unknown, Str], MP3, [Plain(Str), Plain(Str)], a)
  }
  function J14(a: Arena): Row { Row(42, Op0(Unary(Plus)), Op0(UnaryS64(Plus)), [S64], MP3, [Plain(S64)], a) }
  function J15(a: Arena): Row { Row(43, Num64(0), Num64(0), [Unknown], MP3, [Plain(S64)], a) }
  function J16(a: Arena): Row {
    Row(52, Op0(Cmp(EQ)), Op0(CmpS64(EQ)), [Unknown, S64], MP3, [Plain(S64), Plain(S64)], a)
  }
  function J17(a: Arena): Row { Row(53, Op0(BitNot), Op0(BitNot), [S64], MP4, [Plain(S64)], a) }
  function J18(a: Arena): Row { Row(54, Op0(Return), Op0(Return), [U64], MP4, [Plain(S64)], a) }

  function Front(a: Arena): seq<Row> { [J3(a), J4(a), J5(a), J6(a)] }
  function Tail(a: Arena): seq<Row> { [J11(a), J12(a), J13(a), J14(a), J15(a), J16(a), J17(a), J18(a)] }

  /** The program on an integer field and a string field. */
  function JumpRows(x: Access, y: Access): seq<Row> {
    var one := Recorded(x, EMPTY);
    var both := Recorded(y, one);
    AccessRows(x, LoadTyped(x.ot), 0, map[], EMPTY)
    + (Front(one) + (AccessRows(y, LoadTyped(StringObj), 21, MP2, one) + ([J10(both)] + Tail(both))))
  }

  lemma TailLast(src: Source, a: Arena)
    ensures IsTable(src, [J17(a)] + [J18(a)])
  {
    BitNotRow(src, J17(a), [J18(a)]);
  }

  lemma TailEnd(src: Source, a: Arena)
    ensures IsTable(src, [J15(a), J16(a), J17(a), J18(a)])
  {
    TailLast(src, a);
    CompareRow(src, J16(a), [J17(a)] + [J18(a)], EQ, CmpS64(EQ));
    PushRow(src, J15(a), [J16(a)] + ([J17(a)] + [J18(a)]), S64, Plain(S64));
    assert [J15(a), J16(a), J17(a), J18(a)] == [J15(a)] + ([J16(a)] + ([J17(a)] + [J18(a)]));
  }

  lemma TailCompares(src: Source, a: Arena, rest: seq<Row>)
    requires IsTable(src, rest) && rest[0] == J15(a)
    ensures IsTable(src, [J13(a), J14(a)] + rest)
  {
    PlusRow(src, J14(a), rest);
    CompareRow(src, J13(a), [J14(a)] + rest, EQ, CmpString(EQ));
    assert [J13(a), J14(a)] + rest == [J13(a)] + ([J14(a)] + rest);
  }

  lemma TailStart(src: Source, a: Arena, rest: seq<Row>)
    requires IsTable(src, rest) && rest[0] == J13(a)
    ensures IsTable(src, [J11(a), J12(a)] + rest)
  {
    PushRow(src, J12(a), rest, Str, Plain(Str));
    JumpRow(src, J11(a), [J12(a)] + rest);
    assert [J11(a), J12(a)] + rest == [J11(a)] + ([J12(a)] + rest);
  }

  lemma TailTable(src: Source, a: Arena)
    ensures IsTable(src, Tail(a))
  {
    TailEnd(src, a);
    TailCompares(src, a, [J15(a), J16(a), J17(a), J18(a)]);
    TailStart(src, a, [J13(a), J14(a)] + [J15(a), J16(a), J17(a), J18(a)]);
    assert Tail(a) == [J11(a), J12(a)] + ([J13(a), J14(a)] + [J15(a), J16(a), J17(a), J18(a)]);
  }

  lemma MiddleTable(src: Source, y: Access, a: Arena, both: Arena, tail: seq<Row>)
    requires Resolves(src, y) && y.ot == StringObj && a.len == GID_SIZE && both == Recorded(y, a)
    requires IsTable(src, tail) && tail[0] == J11(both)
    ensures IsTable(src, AccessRows(y, LoadTyped(StringObj), 21, MP2, a) + ([J10(both)] + tail))
  {
    PushRow(src, J10(both), tail, S64, Plain(S64));
    AccessTable(src, y, LoadTyped(StringObj), Str, 21, MP2, a, [J10(both)] + tail);
  }

  lemma FrontEnd(src: Source, a: Arena, rest: seq<Row>)
    requires IsTable(src, rest) && rest[0] == RootRow(21, MP2, a)
    ensures IsTable(src, [J5(a), J6(a)] + rest)
  {
    JumpRow(src, J6(a), rest);
    BitNotRow(src, J5(a), [J6(a)] + rest);
    assert [J5(a), J6(a)] + rest == [J5(a)] + ([J6(a)] + rest);
  }

  lemma FrontTable(src: Source, a: Arena, rest: seq<Row>)
    requires IsTable(src, rest) && rest[0] == RootRow(21, MP2, a)
    ensures IsTable(src, Front(a) + rest)
  {
    FrontEnd(src, a, rest);
    var more := [J5(a), J6(a)] + rest;
    JumpRow(src, J4(a), more);
    PushRow(src, J3(a), [J4(a)] + more, S64, Plain(S64));
    assert Front(a) + rest == [J3(a)] + ([J4(a)] + more);
  }

  /** An integer field and a string field of the event, by the names of the program. */
  ghost predicate Named(src: Source, x: Access, y: Access) {
    && Resolves(src, x) && Resolves(src, y)
    && LoadTarget(x.ot) == Some((S64, LoadTyped(x.ot))) && y.ot == StringObj
  }

  lemma JumpTable(src: Source, x: Access, y: Access)
    requires Named(src, x, y)
    ensures IsTable(src, JumpRows(x, y))
  {
    var one := Recorded(x, EMPTY);
    var both := Recorded(y, one);
    TailTable(src, both);
    MiddleTable(src, y, one, both, Tail(both));
    var middle := AccessRows(y, LoadTyped(StringObj), 21, MP2, one) + ([J10(both)] + Tail(both));
    FrontTable(src, one, middle);
    AccessTable(src, x, LoadTyped(x.ot), S64, 0, map[], EMPTY, Front(one) + middle);
  }

  // The run: i and 0, the jump to 35, 0 dropped, i compared with "a"

  ghost predicate OnTheWay(x: Access, one: Arena, both: Arena, rows: seq<Row>) {
    && J3(one) in rows && J4(one) in rows && J11(both) in rows && J12(both) in rows && J13(both) in rows
    && AccessRows(x, LoadTyped(x.ot), 0, map[], EMPTY) <= rows
  }

  lemma RowsInside(x: Access, y: Access)
    ensures OnTheWay(x, Recorded(x, EMPTY), Recorded(y, Recorded(x, EMPTY)), JumpRows(x, y))
  {
    var rows, one := JumpRows(x, y), Recorded(x, EMPTY);
    var both := Recorded(y, one);
    assert rows[3] == J3(one) && rows[4] == J4(one);
    assert rows[11] == J11(both) && rows[12] == J12(both) && rows[13] == J13(both);
  }

  lemma JumpedPath(env: Env, symtab: seq<byte>, a: Arena, rows: seq<Row>, v: Value, written: bool)
      returns (ps: seq<Point>)
    requires env.Valid() && v.VInt? && J11(a) in rows && J12(a) in rows && J13(a) in rows
    ensures IsPath(env, symtab, written, rows, ps) && ps[0] == Point(J11(a), [v, VInt(0)]) && Smooth(ps)
    ensures ps[|ps| - 1] == Point(J13(a), [v, PlainText(A)])
  {
    var p, q, end := Point(J11(a), [v, VInt(0)]), Point(J12(a), [v]), [Point(J13(a), [v, PlainText(A)])];
    PushPath(env, symtab, written, rows, q, PlainText(A), end);
    ZeroPath(env, symtab, written, rows, p, [q] + end);
    ps := [p] + ([q] + end);
  }

  lemma JumpingPath(env: Env, symtab: seq<byte>, one: Arena, both: Arena, rows: seq<Row>, v: Value, written: bool,
                    end: seq<Point>) returns (ps: seq<Point>)
    requires env.Valid() && v.VInt? && J3(one) in rows && J4(one) in rows && Smooth(end)
    requires IsPath(env, symtab, written, rows, end) && end[0] == Point(J11(both), [v, VInt(0)])
    ensures IsPath(env, symtab, written, rows, ps) && ps[0] == Point(J3(one), [v]) && ps[|ps| - 1] == end[|end| - 1]
    ensures Smooth(ps)
  {
    var p, q := Point(J3(one), [v]), Point(J4(one), [v, VInt(0)]);
    ZeroPath(env, symtab, written, rows, q, end);
    PushPath(env, symtab, written, rows, p, VInt(0), [q] + end);
    ps := [p] + ([q] + end);
  }

  lemma JumpStops(env: Env, symtab: seq<byte>, a: Arena, n: word, written: bool)
    requires env.Valid()
    ensures TurnOf(env, symtab, written, Point(J13(a), [VInt(n), PlainText(A)]))
            == Halt(if written then Error else Wild)
  {
  }

  /** A path from the first row to the comparator at 41. */
  lemma JumpPath(src: Source, env: Env, x: Access, both: Arena, rows: seq<Row>, mem: Mem, n: word, written: bool)
      returns (ps: seq<Point>)
    requires Ready(src, env, x, mem) && LoadMem(x.ot, mem) == Ok(VInt(n))
    requires LoadTarget(x.ot) == Some((S64, LoadTyped(x.ot))) && OnTheWay(x, Recorded(x, EMPTY), both, rows)
    ensures IsPath(env, src.symtab, written, rows, ps) && |ps| >= 2 && Smooth(ps)
    ensures ps[0] == Point(rows[0], []) && ps[1].vs == [VPtr(PayloadRoot)]
    ensures ps[|ps| - 1] == Point(J13(both), [VInt(n), PlainText(A)])
  {
    var v := VInt(n);
    var end := JumpedPath(env, src.symtab, both, rows, v, written);
    end := JumpingPath(env, src.symtab, Recorded(x, EMPTY), both, rows, v, written, end);
    AccessGoesOn(src, env, x, LoadTyped(x.ot), S64, mem, v, written, rows, end);
    AccessIsSmooth(x, LoadTyped(x.ot), mem);
    ps := AccessPath(x, LoadTyped(x.ot), mem) + end;
  }

  lemma RowsSafe(x: Access, y: Access)
    ensures var rows := JumpRows(x, y); forall k :: 0 <= k < |rows| ==> CompareSafe(rows[k].i, rows[k].es)
  {
  }

  lemma JumpCompares(src: Source, x: Access, y: Access)
    requires Named(src, x, y)
    ensures var rows := JumpRows(x, y);
            && IsLinked(Code(rows), src)
            && (forall v, s :: Reached(Code(rows), src, v, s) ==>
                  && v.pc < |Code(rows)| && Decode(Code(rows), v.pc).Some?
                  && CompareSafe(Decode(Code(rows), v.pc).value, s.stack))
  {
    JumpTable(src, x, y);
    RowsSafe(x, y);
    TableCompares(src, JumpRows(x, y));
  }

  /** For every event with an integer and a string field: each comparator the specializer reaches has
      operands of one class and is not LE, and yet the program, which fails as written, reads the
      integer as a string. */
  lemma JumpMisleads(src: Source, env: Env, x: Access, y: Access, mem: Mem, n: word, e: seq<Cell>)
    requires Named(src, x, y) && Ready(src, env, x, mem) && LoadMem(x.ot, mem) == Ok(VInt(n)) && |e| == STACK_LEN
    ensures var rows := JumpRows(x, y);
            && IsLinked(Code(rows), src) && FinalCode(Code(rows), src) == Final(rows)
            && FinalGids(Code(rows), src) == map[0 := GidOf(x), GID_SIZE := GidOf(y)]
            && Run(env, Final(rows), RState(0, [])) == RegRun(env, Final(rows), 0, RegInit(e)) == Wild
            && RefRun(env, Code(rows), src.symtab, RState(0, [])) == Error
            && (forall v, s :: Reached(Code(rows), src, v, s) ==>
                  && v.pc < |Code(rows)| && Decode(Code(rows), v.pc).Some?
                  && CompareSafe(Decode(Code(rows), v.pc).value, s.stack))
  {
    var rows, both := JumpRows(x, y), Recorded(y, Recorded(x, EMPTY));
    JumpTable(src, x, y);
    RowsInside(x, y);
    var ps := JumpPath(src, env, x, both, rows, mem, n, false);
    var qs := JumpPath(src, env, x, both, rows, mem, n, true);
    JumpStops(env, src.symtab, both, n, false);
    JumpStops(env, src.symtab, both, n, true);
    TableEnds(src, rows, env, ps, Wild, qs, Error, e);
    JumpCompares(src, x, y);
  }

  // Such an event, and the table that names its fields for the GET_SYMBOLs at 1 and 22

  const FIELDS: seq<Field> := [Field([105], false, Integer(true)), Field([115], false, StringT)]
  const SOURCE := Source(FIELDS, [], [1, 0, 105, 0, 22, 0, 115, 0])
  const ON_I := Access(0, [105], 0, 2, S64Obj, Integer(true))
  const ON_S := Access(1, [115], 8, 6, StringObj, StringT)

  lemma NameFound(x: Access)
    requires x == ON_I || x == ON_S
    ensures SymbolAt(SOURCE.symtab, x.sym) == Some(x.name)
  {
    var rest := SOURCE.symtab[x.sym..];
    assert rest[0] == x.name[0] && rest[1] == 0;
    assert StrLen(rest) == 1;
    assert rest[..1] == x.name;
  }

  lemma NamesResolve()
    ensures Named(SOURCE, ON_I, ON_S)
  {
    NameFound(ON_I);
    NameFound(ON_S);
    assert FIELDS[1..] == [FIELDS[1]];
  }

  lemma EventNamed(env: Env, n: word)
    requires env.Valid() && env.fields == FIELDS && env.slots[0] == IntSlot(n)
    requires env.gids == map[0 := GidOf(ON_I), GID_SIZE := GidOf(ON_S)]
    ensures Named(SOURCE, ON_I, ON_S) && Ready(SOURCE, env, ON_I, SlotMem(IntSlot(n)))
  {
    NamesResolve();
  }

  lemma SymbolByte(code: seq<byte>, pc: nat, i: Insn)
    requires Stands(code, pc, i) && i.op == GetSymbol
    ensures code[pc] == Relocation.GET_SYMBOL
  {
  }

  /** The two entries of the table. */
  lemma TableItems()
    ensures Relocation.ItemAt(SOURCE.symtab, 0) == Some(Relocation.Item(1, [105], 4))
    ensures Relocation.ItemAt(SOURCE.symtab, 4) == Some(Relocation.Item(22, [115], 8))
  {
    var t := SOURCE.symtab;
    assert t[0..2] == [1, 0] && t[4..6] == [22, 0];
    assert LittleEndian([1, 0]) == 1 && LittleEndian([22, 0]) == 22;
    StrLenUnique(t[2..], 1);
    StrLenUnique(t[6..], 1);
    assert t[2..][..1] == [105] && t[6..][..1] == [115];
  }

  lemma TableTaken(code: seq<byte>)
    requires |code| == 55 && code[1] == Relocation.GET_SYMBOL && code[22] == Relocation.GET_SYMBOL
    ensures Relocation.RelocateAll(code, FIELDS, [], SOURCE.symtab, 0) == Relocation.Applied(code)
  {
    TableItems();
    assert Relocation.NamesSymbols(code, SOURCE.symtab, 8);
    assert Relocation.NamesSymbols(code, SOURCE.symtab, 4);
    Relocation.SymbolsStay(code, FIELDS, [], SOURCE.symtab, 0);
  }

  lemma SymbolRows(x: Access, y: Access)
    ensures var rows := JumpRows(x, y);
            && |rows| == 19 && rows[18].pc == 54
            && rows[1].pc == 1 && rows[1].i.op == GetSymbol && rows[8].pc == 22 && rows[8].i.op == GetSymbol
  {
  }

  /** The table is one that relocation takes, and leaves the program as it is. */
  lemma JumpRelocates()
    ensures var code := Code(JumpRows(ON_I, ON_S));
            |code| == 55 && Relocation.RelocateAll(code, FIELDS, [], SOURCE.symtab, 0) == Relocation.Applied(code)
  {
    var rows := JumpRows(ON_I, ON_S);
    NamesResolve();
    JumpTable(SOURCE, ON_I, ON_S);
    SymbolRows(ON_I, ON_S);
    CodeLength(SOURCE, rows);
    TableLinked(SOURCE, rows);
    SymbolByte(Code(rows), 1, rows[1].i);
    SymbolByte(Code(rows), 22, rows[8].i);
    TableTaken(Code(rows));
  }
}
