/** Accesses to fields of the event, as rows of a table and as paths through it. */
module Accesses {
  import opened Words
  import opened Opcodes
  import opened Validator
  import opened Fields
  import opened Specializer
  import opened Interpreter
  import opened Linked
  import opened Preservation
  import opened Programs
  import opened Tables
  import opened RegisterPaths

  /** A field of the event: its place in the event, on the payload and in the name table, and its type. */
  datatype Access = Access(k: nat, name: seq<byte>, off: nat, sym: nat, ot: ObjType, ty: FieldType)

  /** The access resolves in the source. */
  ghost predicate Resolves(src: Source, x: Access) {
    && Lookup(src.fields, x.name) == Some((x.k, x.off)) && SymbolAt(src.symtab, x.sym) == Some(x.name)
    && x.k < |src.fields| && src.fields[x.k].ty == x.ty && ObjTypeOf(x.ty, false) == Some(x.ot)
    && x.sym < MAX_DATA_LEN
  }

  function GidOf(x: Access): Gid { Gid(x.off, 0, x.ot, 0, Some(x.ty)) }

  /** The lookup data with one more record. */
  function Recorded(x: Access, arena: Arena): Arena { Arena(arena.gids[arena.len := GidOf(x)], arena.len + GID_SIZE) }

  function RootRow(pc: nat, mp: MergeTable, arena: Arena): Row {
    Row(pc, Op0(GetPayloadRoot), Op0(GetPayloadRoot), [], mp, [], arena)
  }

  function SymbolRowOf(x: Access, pc: nat, mp: MergeTable, arena: Arena): Row {
    Row(pc, Insn(GetSymbol, x.sym, []), Insn(GetIndexU16, arena.len, []), [Ptr], mp, [Entry(Ptr, RootPayload)], arena)
  }

  function LoadRowOf(x: Access, op: Op, pc: nat, mp: MergeTable, arena: Arena): Row {
    Row(pc, Op0(LoadField), Op0(op), [Ptr], mp, [Entry(Ptr, ObjectLoad(x.ot, x.ty))], arena)
  }

  /** GET_PAYLOAD_ROOT, GET_SYMBOL, LOAD_FIELD on an empty stack. */
  function AccessRows(x: Access, op: Op, pc: nat, mp: MergeTable, arena: Arena): seq<Row> {
    [RootRow(pc, mp, arena), SymbolRowOf(x, pc + 1, mp, arena), LoadRowOf(x, op, pc + 4, mp, Recorded(x, arena))]
  }

  lemma PushRecord(x: Access, arena: Arena)
    requires arena.len == 0 || arena.len == GID_SIZE
    ensures PushData(arena, GidOf(x)) == Some((arena.len, Recorded(x, arena)))
  {
  }

  /** What stands before LOAD_FIELD's successor. */
  ghost predicate Loaded(x: Access, t: RegType, pc: nat, mp: MergeTable, arena: Arena, b: Row) {
    b.pc == pc && b.ts == [Unknown] && b.mp == mp && b.es == [Plain(t)] && b.arena == arena
  }

  lemma LoadTable(src: Source, x: Access, op: Op, t: RegType, pc: nat, mp: MergeTable, arena: Arena, rest: seq<Row>)
    requires LoadTarget(x.ot) == Some((t, op)) && pc !in mp
    requires IsTable(src, rest) && Loaded(x, t, pc + 1, mp, arena, rest[0])
    ensures IsTable(src, [LoadRowOf(x, op, pc, mp, arena)] + rest)
  {
    assert mp - {pc} == mp;
    FieldRow(src, LoadRowOf(x, op, pc, mp, arena), rest, x.ot, t, op);
  }

  /** What stands before GET_SYMBOL's successor. */
  ghost predicate Denotes(x: Access, pc: nat, mp: MergeTable, arena: Arena, b: Row) {
    b.pc == pc && b.ts == [Ptr] && b.mp == mp && b.es == [Entry(Ptr, ObjectLoad(x.ot, x.ty))] && b.arena == arena
  }

  lemma SymbolTable(src: Source, x: Access, pc: nat, mp: MergeTable, arena: Arena, rest: seq<Row>)
    requires Resolves(src, x) && (arena.len == 0 || arena.len == GID_SIZE) && pc !in mp
    requires IsTable(src, rest) && Denotes(x, pc + 3, mp, Recorded(x, arena), rest[0])
    ensures IsTable(src, [SymbolRowOf(x, pc, mp, arena)] + rest)
  {
    PushRecord(x, arena);
    assert mp - {pc} == mp;
    SymbolRow(src, SymbolRowOf(x, pc, mp, arena), rest, x.name, x.k, x.off, x.ot, arena.len);
  }

  lemma RootTable(src: Source, x: Access, pc: nat, mp: MergeTable, arena: Arena, rest: seq<Row>)
    requires pc !in mp && IsTable(src, rest) && rest[0] == SymbolRowOf(x, pc + 1, mp, arena)
    ensures IsTable(src, [RootRow(pc, mp, arena)] + rest)
  {
    assert mp - {pc} == mp;
    PushRow(src, RootRow(pc, mp, arena), rest, Ptr, Entry(Ptr, RootPayload));
  }

  lemma AccessTable(src: Source, x: Access, op: Op, t: RegType, pc: nat, mp: MergeTable, arena: Arena, rest: seq<Row>)
    requires Resolves(src, x) && LoadTarget(x.ot) == Some((t, op)) && (arena.len == 0 || arena.len == GID_SIZE)
    requires pc !in mp && pc + 1 !in mp && pc + 4 !in mp && IsTable(src, rest)
    requires Loaded(x, t, pc + 5, mp, Recorded(x, arena), rest[0])
    ensures IsTable(src, AccessRows(x, op, pc, mp, arena) + rest)
  {
    var rows := AccessRows(x, op, pc, mp, arena);
    LoadTable(src, x, op, t, pc + 4, mp, Recorded(x, arena), rest);
    SymbolTable(src, x, pc + 1, mp, arena, [rows[2]] + rest);
    RootTable(src, x, pc, mp, arena, [rows[1]] + ([rows[2]] + rest));
    assert rows + rest == [rows[0]] + ([rows[1]] + ([rows[2]] + rest));
  }

  /** The field's memory. */
  ghost predicate Shows(env: Env, x: Access, mem: Mem)
    requires env.Valid()
  {
    && x.k < |env.fields|
    && PayloadObj(Some(env.slots[x.k]), x.ot, Some(x.ty)) == Ok(VPtr(Obj(x.ot, mem, Some(x.ty))))
  }

  /** The run of an access that opens a program. */
  function AccessPath(x: Access, op: Op, mem: Mem): seq<Point> {
    var rows := AccessRows(x, op, 0, map[], EMPTY);
    [Point(rows[0], []), Point(rows[1], [VPtr(PayloadRoot)]), Point(rows[2], [VPtr(Obj(x.ot, mem, Some(x.ty)))])]
  }

  /** The payload of the event as the rows of an access find it. */
  ghost predicate Ready(src: Source, env: Env, x: Access, mem: Mem) {
    && Resolves(src, x) && env.Valid() && env.fields == src.fields && 0 in env.gids && env.gids[0] == GidOf(x)
    && Shows(env, x, mem)
  }

  lemma LoadPath(src: Source, env: Env, x: Access, op: Op, t: RegType, mem: Mem, v: Value, written: bool,
                 rows: seq<Row>, p: Point, ps: seq<Point>)
    requires Ready(src, env, x, mem) && LoadMem(x.ot, mem) == Ok(v)
    requires LoadTarget(x.ot) == Some((t, op)) && p.a in rows
    requires p.a.i == Op0(LoadField) && p.a.out == Op0(op) && p.vs == [VPtr(Obj(x.ot, mem, Some(x.ty)))]
    requires IsPath(env, src.symtab, written, rows, ps) && ps[0].a.pc == p.a.pc + 1 && ps[0].vs == [v]
    ensures IsPath(env, src.symtab, written, rows, [p] + ps)
  {
    PathCons(env, src.symtab, written, rows, p, ps);
  }

  lemma SymbolPath(src: Source, env: Env, x: Access, mem: Mem, written: bool, rows: seq<Row>,
                   p: Point, ps: seq<Point>)
    requires Ready(src, env, x, mem) && p.a in rows
    requires p.a.i == Insn(GetSymbol, x.sym, []) && p.a.out == Insn(GetIndexU16, 0, []) && p.vs == [VPtr(PayloadRoot)]
    requires IsPath(env, src.symtab, written, rows, ps)
    requires ps[0].a.pc == p.a.pc + 3 && ps[0].vs == [VPtr(Obj(x.ot, mem, Some(x.ty)))]
    ensures IsPath(env, src.symtab, written, rows, [p] + ps)
  {
    LookupIsLookup(src.fields, x.name, 0);
    SlotAtOffset(env.fields, env.slots, x.k);
    PathCons(env, src.symtab, written, rows, p, ps);
  }

  lemma FieldGoesOn(src: Source, env: Env, x: Access, op: Op, t: RegType, mem: Mem, v: Value, written: bool,
                    rows: seq<Row>, a: seq<Row>, ps: seq<Point>)
    requires Ready(src, env, x, mem) && LoadMem(x.ot, mem) == Ok(v) && LoadTarget(x.ot) == Some((t, op))
    requires a == AccessRows(x, op, 0, map[], EMPTY) && a[1] in rows && a[2] in rows
    requires IsPath(env, src.symtab, written, rows, ps) && ps[0].a.pc == 5 && ps[0].vs == [v]
    ensures var p := VPtr(Obj(x.ot, mem, Some(x.ty)));
            IsPath(env, src.symtab, written, rows, [Point(a[1], [VPtr(PayloadRoot)])] + ([Point(a[2], [p])] + ps))
  {
    var p, q := Point(a[1], [VPtr(PayloadRoot)]), Point(a[2], [VPtr(Obj(x.ot, mem, Some(x.ty)))]);
    LoadPath(src, env, x, op, t, mem, v, written, rows, q, ps);
    SymbolPath(src, env, x, mem, written, rows, p, [q] + ps);
  }

  lemma AccessGoesOn(src: Source, env: Env, x: Access, op: Op, t: RegType, mem: Mem, v: Value, written: bool,
                     rows: seq<Row>, ps: seq<Point>)
    requires Ready(src, env, x, mem) && LoadMem(x.ot, mem) == Ok(v) && LoadTarget(x.ot) == Some((t, op))
    requires AccessRows(x, op, 0, map[], EMPTY) <= rows
    requires IsPath(env, src.symtab, written, rows, ps) && ps[0].a.pc == 5 && ps[0].vs == [v]
    ensures IsPath(env, src.symtab, written, rows, AccessPath(x, op, mem) + ps)
  {
    var a := AccessPath(x, op, mem);
    FieldGoesOn(src, env, x, op, t, mem, v, written, rows, AccessRows(x, op, 0, map[], EMPTY), ps);
    PushPath(env, src.symtab, written, rows, a[0], VPtr(PayloadRoot), [a[1]] + ([a[2]] + ps));
    assert a + ps == [a[0]] + ([a[1]] + ([a[2]] + ps));
  }

  lemma AccessIsSmooth(x: Access, op: Op, mem: Mem)
    requires op.LoadField? || op.LoadTyped?
    ensures Smooth(AccessPath(x, op, mem))
  {
  }

  /** A field x of the type at the start of an event, and the table that names it for the GET_SYMBOL
      at offset 1. */
  function SourceOf(ty: FieldType): Source { Source([Field([120], false, ty)], [], [1, 0, 120, 0]) }

  function AccessOf(ot: ObjType, ty: FieldType): Access { Access(0, [120], 0, 2, ot, ty) }

  lemma SingleResolves(ot: ObjType, ty: FieldType)
    requires ObjTypeOf(ty, false) == Some(ot)
    ensures Resolves(SourceOf(ty), AccessOf(ot, ty))
  {
    var rest := SourceOf(ty).symtab[2..];
    assert rest[0] == 120 && rest[1] == 0;
    assert StrLen(rest) == 1;
    assert rest[..1] == [120];
  }
}
