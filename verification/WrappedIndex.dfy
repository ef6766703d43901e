/** A constant index into a sequence whose offset wraps: as written it is an error on every event, and
    the code reads another element. */
module WrappedIndex {
  import opened Words
  import opened Opcodes
  import opened Validator
  import opened Fields
  import opened Specializer
  import opened Interpreter
  import opened Linked
  import opened Preservation
  import opened Registers
  import opened RegisterPaths
  import opened Programs
  import opened Tables
  import opened Accesses
  import Limits

  /** The lookup data of the sequence and of its element. */
  function Data(x: Access, el: Elem, index: nat): Arena
    requires Bytewise(el)
  {
    Arena(map[0 := GidOf(x), GID_SIZE := ElemGid(el, index)], 2 * GID_SIZE)
  }

  function IndexRowOf(x: Access, index: nat): Row {
    Row(4, Insn(GetIndexU64, index, []), Insn(GetIndexU64, GID_SIZE, []), [Ptr], map[],
        [Entry(Ptr, ObjectLoad(x.ot, x.ty))], Recorded(x, EMPTY))
  }

  function ElemRowOf(x: Access, el: Elem, index: nat): Row
    requires Bytewise(el)
  {
    var ot := ElemObjType(el).value;
    Row(13, Op0(LoadField), Op0(LoadTyped(ot)), [Ptr], map[], [Entry(Ptr, Object(ot, None))], Data(x, el, index))
  }

  /** GET_PAYLOAD_ROOT, GET_SYMBOL, GET_INDEX_U64, LOAD_FIELD, RETURN. */
  function IndexRows(x: Access, el: Elem, index: nat): seq<Row>
    requires Bytewise(el)
  {
    [RootRow(0, map[], EMPTY), SymbolRowOf(x, 1, map[], EMPTY), IndexRowOf(x, index), ElemRowOf(x, el, index),
     Row(14, Op0(Return), Op0(Return), [Unknown], map[], [Plain(S64)], Data(x, el, index))]
  }

  /** A sequence of integers among the fields. */
  ghost predicate OfIntegers(src: Source, x: Access, el: Elem) {
    Resolves(src, x) && x.ty == Sequence(el, false) && x.ot == SequenceObj && Bytewise(el)
  }

  lemma ElemRecorded(x: Access, el: Elem, index: nat)
    requires Bytewise(el)
    ensures PushData(Recorded(x, EMPTY), ElemGid(el, index)) == Some((GID_SIZE, Data(x, el, index)))
  {
    assert Recorded(x, EMPTY).gids[GID_SIZE := ElemGid(el, index)] == Data(x, el, index).gids;
  }

  lemma LoadedTable(src: Source, x: Access, el: Elem, index: nat)
    requires Bytewise(el)
    ensures var rows := IndexRows(x, el, index); IsTable(src, [rows[3]] + [rows[4]])
  {
    var rows := IndexRows(x, el, index);
    FieldRow(src, rows[3], [rows[4]], ElemObjType(el).value, S64, LoadTyped(ElemObjType(el).value));
  }

  lemma ElemTable(src: Source, x: Access, el: Elem, index: nat)
    requires OfIntegers(src, x, el) && index < MODULUS
    ensures var rows := IndexRows(x, el, index); IsTable(src, [rows[2]] + ([rows[3]] + [rows[4]]))
  {
    var rows := IndexRows(x, el, index);
    LoadedTable(src, x, el, index);
    ElemRecorded(x, el, index);
    IndexRow(src, rows[2], [rows[3]] + [rows[4]], el, false, GID_SIZE);
  }

  lemma IndexTable(src: Source, x: Access, el: Elem, index: nat)
    requires OfIntegers(src, x, el) && index < MODULUS
    ensures IsTable(src, IndexRows(x, el, index))
  {
    var rows := IndexRows(x, el, index);
    ElemTable(src, x, el, index);
    var rest := [rows[2]] + ([rows[3]] + [rows[4]]);
    SymbolTable(src, x, 1, map[], EMPTY, rest);
    RootTable(src, x, 0, map[], EMPTY, [rows[1]] + rest);
    assert rows == [rows[0]] + ([rows[1]] + rest);
  }

  // The runs

  /** The event's sequence, and the lookup data of the program. */
  ghost predicate Holding(src: Source, env: Env, x: Access, el: Elem, index: nat, len: count, data: seq<byte>) {
    && OfIntegers(src, x, el) && index < MODULUS && Ready(src, env, x, SlotMem(SeqSlot(len, Some(data))))
    && env.gids == Data(x, el, index).gids && |data| == len * (el.size / 8)
  }

  function SequencePtr(x: Access, len: count, data: seq<byte>): Value {
    VPtr(Obj(x.ot, SlotMem(SeqSlot(len, Some(data))), Some(x.ty)))
  }

  /** The rows up to the index. */
  lemma IndexOpens(src: Source, env: Env, x: Access, el: Elem, index: nat, len: count, data: seq<byte>, written: bool,
                   ps: seq<Point>)
    requires Holding(src, env, x, el, index, len, data)
    requires var rows := IndexRows(x, el, index);
             && IsPath(env, src.symtab, written, rows, ps) && ps[0] == Point(rows[2], [SequencePtr(x, len, data)])
    ensures var rows := IndexRows(x, el, index);
            IsPath(env, src.symtab, written, rows, [Point(rows[0], [])] + ([Point(rows[1], [VPtr(PayloadRoot)])] + ps))
  {
    var rows := IndexRows(x, el, index);
    var p, q := Point(rows[0], []), Point(rows[1], [VPtr(PayloadRoot)]);
    SymbolPath(src, env, x, SlotMem(SeqSlot(len, Some(data))), written, rows, q, ps);
    PushPath(env, src.symtab, written, rows, p, VPtr(PayloadRoot), [q] + ps);
  }

  /** As written the index is beyond every sequence. */
  lemma IndexReads(src: Source, env: Env, x: Access, el: Elem, index: nat, len: count, data: seq<byte>)
      returns (ps: seq<Point>)
    requires Holding(src, env, x, el, index, len, data) && Wraps(el, index)
    ensures Ending(env, src.symtab, true, IndexRows(x, el, index), ps, Error)
  {
    var rows := IndexRows(x, el, index);
    var end := [Point(rows[2], [SequencePtr(x, len, data)])];
    ElemOffset(el, index, len);
    IndexOpens(src, env, x, el, index, len, data, true, end);
    ps := [Point(rows[0], [])] + ([Point(rows[1], [VPtr(PayloadRoot)])] + end);
  }

  function ElemPtr(el: Elem, data: seq<byte>, off: nat): Value
    requires Bytewise(el)
  {
    VPtr(Obj(ElemObjType(el).value, ElemMem(Some(data), off), None))
  }

  /** The element that the code reads. */
  function Element(el: Elem, data: seq<byte>, j: nat): word
    requires Bytewise(el) && (j + 1) * (el.size / 8) <= |data|
  {
    var w := el.size / 8;
    assert (j + 1) * w == j * w + w;
    Extend(el.signed, data[j * w..j * w + w])
  }

  lemma ElemRead(el: Elem, data: seq<byte>, j: nat)
    requires Bytewise(el) && (j + 1) * (el.size / 8) <= |data|
    ensures LoadMem(ElemObjType(el).value, ElemMem(Some(data), j * (el.size / 8))) == Ok(VInt(Element(el, data, j)))
  {
    var w := el.size / 8;
    assert (j + 1) * w == j * w + w && ElemWidth(ElemObjType(el).value) == w;
  }

  lemma ElemMoves(env: Env, symtab: seq<byte>, x: Access, el: Elem, index: nat, data: seq<byte>, j: nat)
    requires env.Valid() && Bytewise(el) && (j + 1) * (el.size / 8) <= |data|
    ensures var rows := IndexRows(x, el, index);
            Moves(env, symtab, false, Point(rows[3], [ElemPtr(el, data, j * (el.size / 8))]),
                  Point(rows[4], [VInt(Element(el, data, j))]))
  {
    ElemRead(el, data, j);
  }

  lemma ElemLoaded(env: Env, symtab: seq<byte>, x: Access, el: Elem, index: nat, data: seq<byte>, j: nat)
      returns (ps: seq<Point>, o: Outcome)
    requires env.Valid() && Bytewise(el) && (j + 1) * (el.size / 8) <= |data|
    ensures var rows := IndexRows(x, el, index);
            && IsPath(env, symtab, false, rows, ps) && ps[0] == Point(rows[3], [ElemPtr(el, data, j * (el.size / 8))])
            && o == (if Element(el, data, j) != 0 then Accept else Reject)
            && TurnOf(env, symtab, false, ps[|ps| - 1]) == Halt(o) && Smooth(ps)
  {
    var rows, v := IndexRows(x, el, index), Element(el, data, j);
    var p, q := Point(rows[3], [ElemPtr(el, data, j * (el.size / 8))]), Point(rows[4], [VInt(v)]);
    ElemMoves(env, symtab, x, el, index, data, j);
    PathCons(env, symtab, false, rows, p, [q]);
    ps, o := [p] + [q], if v != 0 then Accept else Reject;
  }

  lemma IndexTaken(src: Source, env: Env, x: Access, el: Elem, index: nat, len: count, data: seq<byte>, j: nat)
    requires Holding(src, env, x, el, index, len, data) && j == index % (MODULUS / (el.size / 8)) && j < len
    ensures var rows := IndexRows(x, el, index);
            Moves(env, src.symtab, false, Point(rows[2], [SequencePtr(x, len, data)]),
                  Point(rows[3], [ElemPtr(el, data, j * (el.size / 8))]))
  {
    Limits.SequenceBound(env, el, index, len, data, false);
  }

  lemma IndexRuns(src: Source, env: Env, x: Access, el: Elem, index: nat, len: count, data: seq<byte>, j: nat)
      returns (ps: seq<Point>, o: Outcome)
    requires Holding(src, env, x, el, index, len, data) && j == index % (MODULUS / (el.size / 8)) && j < len
    ensures (j + 1) * (el.size / 8) <= |data| && o == (if Element(el, data, j) != 0 then Accept else Reject)
    ensures Ending(env, src.symtab, false, IndexRows(x, el, index), ps, o) && Smooth(ps)
  {
    var rows := IndexRows(x, el, index);
    ScaledOrder(len, j + 1, el.size / 8);
    var end;
    end, o := ElemLoaded(env, src.symtab, x, el, index, data, j);
    IndexTaken(src, env, x, el, index, len, data, j);
    var p := Point(rows[2], [SequencePtr(x, len, data)]);
    PathCons(env, src.symtab, false, rows, p, end);
    IndexOpens(src, env, x, el, index, len, data, false, [p] + end);
    var first := [Point(rows[0], [])];
    var more := [Point(rows[1], [VPtr(PayloadRoot)])] + ([p] + end);
    EndingAfter(env, src.symtab, false, rows, first, more, o);
    ps := first + more;
  }

  /** An index whose offset wraps, on a sequence longer than what is left of the index: as written it
      is an error, and the code reads and judges the element of the reduced index. */
  lemma WrappedIndexFails(src: Source, env: Env, x: Access, el: Elem, index: nat, len: count, data: seq<byte>, j: nat,
                          e: seq<Cell>)
    requires Holding(src, env, x, el, index, len, data) && Wraps(el, index) && |e| == STACK_LEN
    requires j == index % (MODULUS / (el.size / 8)) && j < len
    ensures (j + 1) * (el.size / 8) <= |data|
    ensures var rows, o := IndexRows(x, el, index), if Element(el, data, j) != 0 then Accept else Reject;
            && IsLinked(Code(rows), src) && FinalCode(Code(rows), src) == Final(rows)
            && FinalGids(Code(rows), src) == env.gids
            && RefRun(env, Code(rows), src.symtab, RState(0, [])) == Error
            && Run(env, Final(rows), RState(0, [])) == RegRun(env, Final(rows), 0, RegInit(e)) == o
  {
    IndexTable(src, x, el, index);
    var ps, o := IndexRuns(src, env, x, el, index, len, data, j);
    var qs := IndexReads(src, env, x, el, index, len, data);
    TableEnds(src, IndexRows(x, el, index), env, ps, o, qs, Error, e);
  }

  /** The smallest wrapping index for 64, 32 and 16 bits; each reaches the first element. */
  lemma SmallestWraps(size: nat, signed: bool, index: nat)
    requires || (size == 64 && index == 0x2000_0000_0000_0000) || (size == 32 && index == 0x4000_0000_0000_0000)
             || (size == 16 && index == 0x8000_0000_0000_0000)
    ensures Wraps(IntElem(size, signed), index) && !Wraps(IntElem(size, signed), index - 1)
    ensures index % (MODULUS / (size / 8)) == 0
  {
    assert index * (size / 8) == MODULUS;
  }

  /** An event with one sequence and the table that names it: one on which this shows. */
  lemma EventHolds(env: Env, el: Elem, index: nat, len: count, data: seq<byte>)
    requires env.Valid() && Bytewise(el) && index < MODULUS && |data| == len * (el.size / 8)
    requires var ty := Sequence(el, false);
             && env.fields == SourceOf(ty).fields && env.slots[0] == SeqSlot(len, Some(data))
             && env.gids == Data(AccessOf(SequenceObj, ty), el, index).gids
    ensures var ty := Sequence(el, false);
            Holding(SourceOf(ty), env, AccessOf(SequenceObj, ty), el, index, len, data)
  {
    SingleResolves(SequenceObj, Sequence(el, false));
  }
}
