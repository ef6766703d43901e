/** The bytecode specializer: a second forward pass over validated code that resolves field
    names, picks typed opcodes from the operand types it tracks, and rewrites the code in place. */
module Specializer {
  import opened Words
  import opened Opcodes
  import opened Validator
  import opened Fields
  import opened Alignment

  /** What a pointer on the abstract stack designates. */
  datatype Load = NoLoad | RootContext | RootApp | RootPayload | Object(ot: ObjType, fty: Option<FieldType>)

  datatype Entry = Entry(ty: RegType, load: Load)

  function Plain(ty: RegType): Entry { Entry(ty, NoLoad) }

  /** struct bytecode_get_index_data: what a GET_INDEX instruction needs at run time. */
  datatype Gid = Gid(offset: nat, ctxIndex: nat, elemType: ObjType, elemLen: nat, fty: Option<FieldType>)

  const GID_SIZE: nat := 48
  const GID_ALIGN: nat := 8
  const MAX_DATA_LEN: nat := 65536

  datatype CtxField = CtxField(name: Option<seq<byte>>, ty: FieldType)

  /** What a program is specialized against: event fields, static contexts, symbol names. */
  datatype Source = Source(fields: seq<Field>, ctx: seq<CtxField>, symtab: seq<byte>)

  /** Lookup data kept beside the code: gid records by byte offset, and the bytes used so far. */
  datatype Arena = Arena(gids: map<nat, Gid>, len: nat) {
    /** Records lie one after the other below len. */
    ghost predicate Valid() { forall k :: k in gids ==> k + GID_SIZE <= len }
  }

  /** bytecode_push_data: no stored record is disturbed, and the offset fits a 16-bit operand. */
  function PushData(a: Arena, g: Gid): (r: Option<(nat, Arena)>)
    ensures r.Some? ==> r.value.0 < MAX_DATA_LEN && Divides(GID_ALIGN, r.value.0)
    ensures r.Some? && a.Valid() ==> r.value.1.Valid() && r.value.0 !in a.gids
    ensures r.Some? ==> r.value.1.gids == a.gids[r.value.0 := g]
    ensures r.None? <==> a.len + Missing(a.len, GID_ALIGN) + GID_SIZE > MAX_DATA_LEN
  {
    MissingAligns(a.len, GID_ALIGN);
    var off := a.len + Missing(a.len, GID_ALIGN);
    if off + GID_SIZE > MAX_DATA_LEN then None
    else Some((off, Arena(a.gids[off := g], off + GID_SIZE)))
  }

  const CTX_PREFIX: seq<byte> := [36, 99, 116, 120, 46]  // "$ctx."

  function SubName(name: seq<byte>): seq<byte> {
    if CTX_PREFIX <= name then name[|CTX_PREFIX|..] else name
  }

  /** lttng_kernel_get_context_index */
  function ContextIndexFrom(ctx: seq<CtxField>, name: seq<byte>, i: nat): (r: Option<nat>)
    requires i <= |ctx|
    ensures r.Some? ==> i <= r.value < |ctx|
    decreases |ctx| - i
  {
    if i == |ctx| then None
    else if ctx[i].name == Some(SubName(name)) then Some(i)
    else ContextIndexFrom(ctx, name, i + 1)
  }

  /** The name without a leading "$ctx.", byte by byte. */
  ghost predicate Strips(name: seq<byte>, sub: seq<byte>) {
    if |name| >= 5 && name[0] == 36 && name[1] == 99 && name[2] == 116 && name[3] == 120 && name[4] == 46
    then sub == name[5..] else sub == name
  }

  /** k is the first context of that name. */
  ghost predicate IsContext(ctx: seq<CtxField>, sub: seq<byte>, k: nat) {
    k < |ctx| && ctx[k].name == Some(sub) && forall j :: 0 <= j < k ==> ctx[j].name != Some(sub)
  }

  lemma StripsIsSubName(name: seq<byte>, sub: seq<byte>)
    ensures Strips(name, sub) <==> sub == SubName(name)
  {
    if |name| >= 5 {
      assert CTX_PREFIX <= name <==> name[..5] == CTX_PREFIX;
      assert name[..5] == [name[0], name[1], name[2], name[3], name[4]];
    }
  }

  lemma {:induction false} ContextFrom(ctx: seq<CtxField>, name: seq<byte>, sub: seq<byte>, i: nat)
    requires Strips(name, sub) && i <= |ctx| && forall j :: 0 <= j < i ==> ctx[j].name != Some(sub)
    ensures match ContextIndexFrom(ctx, name, i)
            case Some(k) => IsContext(ctx, sub, k)
            case None => forall j :: 0 <= j < |ctx| ==> ctx[j].name != Some(sub)
    decreases |ctx| - i
  {
    StripsIsSubName(name, sub);
    if i < |ctx| && ctx[i].name != Some(sub) {
      ContextFrom(ctx, name, sub, i + 1);
    }
  }

  /** A name finds a context exactly when that is the first one called as the name says without a
      leading "$ctx.", and none exactly when there is none. */
  lemma ContextUnique(ctx: seq<CtxField>, name: seq<byte>, sub: seq<byte>)
    requires Strips(name, sub)
    ensures forall k: nat :: ContextIndexFrom(ctx, name, 0) == Some(k) <==> IsContext(ctx, sub, k)
    ensures ContextIndexFrom(ctx, name, 0).None? <==> forall j :: 0 <= j < |ctx| ==> ctx[j].name != Some(sub)
  {
    ContextFrom(ctx, name, sub, 0);
  }

  /** specialize_load_object */
  function ObjTypeOf(ty: FieldType, isContext: bool): Option<ObjType> {
    match ty
    case Integer(s) => Some(if s then S64Obj else U64Obj)
    case Enum(s) => Some(if s then SignedEnum else UnsignedEnum)
    case Array(e, _, text) =>
      if !Bytewise(e) then None
      else Some(if isContext then StringObj else if text then StringSequence else ArrayObj)
    case Sequence(e, text) =>
      if !Bytewise(e) then None
      else Some(if isContext then StringObj else if text then StringSequence else SequenceObj)
    case StringT => Some(StringObj)
    case Struct => None
    case Variant => None
  }

  /** Arrays and sequences keep their field for later indexing. */
  function ObjectLoad(ot: ObjType, ty: FieldType): Load {
    Object(ot, if ot == ArrayObj || ot == SequenceObj then Some(ty) else None)
  }

  /** specialize_get_index_object_type */
  function ElemObjType(e: Elem): Option<ObjType> {
    if e.OtherElem? then None
    else if e.size == 8 then Some(if e.signed then S8 else U8)
    else if e.size == 16 then Some(if e.signed then S16 else U16)
    else if e.size == 32 then Some(if e.signed then S32 else U32)
    else if e.size == 64 then Some(if e.signed then S64Obj else U64Obj)
    else None
  }

  /** Register type and opcode for loading an object; the opcode stays generic for enumerations. */
  function LoadTarget(ot: ObjType): Option<(RegType, Op)> {
    match ot
    case SignedEnum => Some((S64, LoadField))
    case UnsignedEnum => Some((U64, LoadField))
    case StringObj => Some((Str, LoadTyped(StringObj)))
    case StringSequence => Some((Str, LoadTyped(StringSequence)))
    case SequenceObj => None
    case ArrayObj => None
    case _ => Some((S64, LoadTyped(ot)))
  }

  /** The comparator picked for the operand types, as the six cases of lttng_bytecode_specialize do. */
  function PickCompare(c: CmpOp, ax: RegType, bx: RegType): Option<Op> {
    match ax
    case Str => Some(if (c == EQ || c == NE) && bx == StarGlob then CmpGlob(c == NE) else CmpString(c))
    case StarGlob => if c == EQ || c == NE then Some(CmpGlob(c == NE)) else None
    case S64 => Some(if bx == S64 then CmpS64(c) else CmpDoubleS64(c))
    case _ => None
  }

  /** Outcome of one instruction: the instruction left in its place and the new abstract state. */
  datatype Out = Out(op: Op, arg: nat, stack: seq<Entry>, arena: Arena)

  function Push'(i: Insn, stack: seq<Entry>, e: Entry, arena: Arena): Option<Out> {
    if |stack| >= STACK_LEN then None else Some(Out(i.op, i.arg, stack + [e], arena))
  }

  /** GET_SYMBOL: resolve the name now and leave a GET_INDEX behind. */
  function SpecSymbol(src: Source, i: Insn, stack: seq<Entry>, arena: Arena): Option<Out>
    requires |stack| >= 1
  {
    match SymbolAt(src.symtab, i.arg)
    case None => None
    case Some(name) =>
      match Ax(stack).load
      case RootContext =>
        (match ContextIndexFrom(src.ctx, name, 0)
         case None => None
         case Some(idx) =>
           var ty := src.ctx[idx].ty;
           match ObjTypeOf(ty, true)
           case None => None
           case Some(ot) => SpecGid(Gid(0, idx, ot, 0, Some(ty)), GetIndexU16, ObjectLoad(ot, ty), stack, arena))
      case RootPayload =>
        (match Lookup(src.fields, name)
         case None => None
         case Some((k, off)) =>
           LookupIsLookup(src.fields, name, 0);
           var ty := src.fields[k].ty;
           match ObjTypeOf(ty, false)
           case None => None
           case Some(ot) => SpecGid(Gid(off, 0, ot, 0, Some(ty)), GetIndexU16, ObjectLoad(ot, ty), stack, arena))
      case _ => None
  }

  function SpecGid(g: Gid, op: Op, load: Load, stack: seq<Entry>, arena: Arena): Option<Out>
    requires |stack| >= 1
  {
    match PushData(arena, g)
    case None => None
    case Some((off, arena')) => Some(Out(op, off, SetAx(stack, Entry(Ax(stack).ty, load)), arena'))
  }

  /** specialize_get_index: constant indexing into an array or sequence. */
  function SpecIndex(i: Insn, stack: seq<Entry>, arena: Arena): Option<Out>
    requires |stack| >= 1
  {
    match Ax(stack).load
    case Object(ot, Some(ty)) =>
      if ot == ArrayObj && ty.Array? && Bytewise(ty.elem) && i.arg < ty.length then
        SpecElem(i, ty.elem, stack, arena)
      else if ot == SequenceObj && ty.Sequence? && Bytewise(ty.elem) then
        SpecElem(i, ty.elem, stack, arena)
      else None
    case _ => None
  }

  function SpecElem(i: Insn, e: Elem, stack: seq<Entry>, arena: Arena): Option<Out>
    requires |stack| >= 1 && Bytewise(e)
  {
    SpecGid(ElemGid(e, i.arg), i.op, Object(ElemObjType(e).value, None), stack, arena)
  }

  /** The record of an element; its offset in bytes is computed in 64 bits. */
  function ElemGid(e: Elem, index: nat): Gid
    requires Bytewise(e)
  {
    Gid(Word(index * (e.size / 8)), 0, ElemObjType(e).value, e.size, None)
  }

  /** Pop two, push an integer. */
  function SpecBinary(op: Op, stack: seq<Entry>, arena: Arena): Option<Out> {
    if |stack| >= 2 then Some(Out(op, 0, SetAx(Pop(stack), Plain(S64)), arena)) else None
  }

  /** One instruction of lttng_bytecode_specialize, returns excepted. The case of LE leaves
      its first operand on the abstract stack, unlike the other five comparators. */
  function SpecInsn(src: Source, i: Insn, stack: seq<Entry>, arena: Arena): Option<Out> {
    var op := i.op;
    var same := Some(Out(op, i.arg, stack, arena));
    match op
    case Cmp(c) =>
      if |stack| < 2 then None
      else (match PickCompare(c, Ax(stack).ty, Bx(stack).ty)
            case None => None
            case Some(op') =>
              if c == LE then Some(Out(op', 0, SetAx(stack, Plain(S64)), arena))
              else SpecBinary(op', stack, arena))
    case CmpString(_) => SpecBinary(op, stack, arena)
    case CmpS64(_) => SpecBinary(op, stack, arena)
    case CmpGlob(_) => SpecBinary(op, stack, arena)
    case CmpDoubleS64(_) => SpecBinary(op, stack, arena)
    case Bit(_) => SpecBinary(op, stack, arena)
    case Unary(u) =>
      if |stack| >= 1 && Ax(stack).ty == S64 then Some(Out(UnaryS64(u), 0, stack, arena)) else None
    case UnaryS64(_) => same
    case BitNot => same
    case Logical(_) => if |stack| >= 1 then Some(Out(op, i.arg, Pop(stack), arena)) else None
    case LoadRef(r) => Push'(i, stack, Plain(RefType(r)), arena)
    case LoadString => Push'(i, stack, Plain(Str), arena)
    case LoadStarGlob => Push'(i, stack, Plain(StarGlob), arena)
    case LoadS64 => Push'(i, stack, Plain(S64), arena)
    case CastToS64 =>
      if |stack| >= 1 && Ax(stack).ty == S64 then Some(Out(CastNop, 0, stack, arena)) else None
    case CastNop => same
    case GetContextRoot => Push'(i, stack, Entry(Ptr, RootContext), arena)
    case GetAppContextRoot => Push'(i, stack, Entry(Ptr, RootApp), arena)
    case GetPayloadRoot => Push'(i, stack, Entry(Ptr, RootPayload), arena)
    case LoadField =>
      if |stack| >= 1 && Ax(stack).load.Object? then
        (match LoadTarget(Ax(stack).load.ot)
         case None => None
         case Some((ty, op')) => Some(Out(op', 0, SetAx(stack, Plain(ty)), arena)))
      else None
    case GetSymbol => if |stack| >= 1 then SpecSymbol(src, i, stack, arena) else None
    case GetIndexU16 => if |stack| >= 1 then SpecIndex(i, stack, arena) else None
    case GetIndexU64 => if |stack| >= 1 then SpecIndex(i, stack, arena) else None
    case _ => None
  }

  /** Instructions of the same length and of the same effect on control flow. */
  predicate SameShape(i: Insn, op: Op, arg: nat) {
    || (op == i.op && arg == i.arg)
    || (Writable(op) && !IsStringOp(i.op) && OperandSize(op) == OperandSize(i.op) && arg < Pow256(OperandSize(op)))
  }

  lemma SpecInsnShape(src: Source, i: Insn, stack: seq<Entry>, arena: Arena)
    requires SpecInsn(src, i, stack, arena).Some?
    requires OperandSize(i.op) == 0 ==> i.arg == 0
    ensures var o := SpecInsn(src, i, stack, arena).value;
            SameShape(i, o.op, o.arg) && (arena.Valid() ==> o.arena.Valid())
  {
    OperandRange();
  }

  lemma OperandRange()
    ensures Pow256(0) == 1 && Pow256(2) == MAX_DATA_LEN && Pow256(8) >= MAX_DATA_LEN
  {
    assert Pow256(4) == 0x1_0000_0000;
    assert Pow256(6) >= Pow256(4);
  }

  datatype SState = SState(pc: nat, stack: seq<Entry>, code: seq<byte>, arena: Arena)

  function Start(code: seq<byte>): SState { SState(0, [], code, Arena(map[], 0)) }

  /** One turn of the loop on the code as rewritten so far; None stands for an error. */
  function SStep(src: Source, st: SState): (r: Option<SState>)
    requires st.pc < |st.code|
    ensures r.Some? ==> |r.value.code| == |st.code| && st.pc < r.value.pc
  {
    match Decode(st.code, st.pc)
    case None => None
    case Some(i) =>
      match SpecInsn(src, i, st.stack, st.arena)
      case None => None
      case Some(o) =>
        DecodeFits(st.code, st.pc);
        SpecInsnShape(src, i, st.stack, st.arena);
        var code' := if o.op == i.op && o.arg == i.arg then st.code else Patch(st.code, st.pc, o.op, o.arg);
        Some(SState(st.pc + Size(i), o.stack, code', o.arena))
  }

  predicate AtReturn(code: seq<byte>, pc: nat)
    requires pc < |code|
  {
    Decode(code, pc).Some? && (Decode(code, pc).value.op.Return? || Decode(code, pc).value.op.ReturnS64?)
  }

  /** The final state of the pass, which ends at the first return instruction. */
  function SpecFrom(src: Source, st: SState): (r: Option<SState>)
    ensures r.Some? ==> |r.value.code| == |st.code|
    decreases |st.code| - st.pc
  {
    if st.pc >= |st.code| then None
    else if AtReturn(st.code, st.pc) then Some(st)
    else match SStep(src, st)
         case None => None
         case Some(st') => SpecFrom(src, st')
  }

  /** Overwrite the opcode and the operand of the instruction at pc. */
  method WriteInsn(code: array<byte>, pc: nat, op: Op, arg: nat)
    requires Writable(op) && pc + 1 + OperandSize(op) <= code.Length
    modifies code
    ensures code[..] == Patch(old(code[..]), pc, op, arg)
  {
    code[pc] := ByteOf(op);
    var operand := Bytes(arg, OperandSize(op));
    for n := 0 to |operand|
      invariant forall k :: 0 <= k < code.Length && !(pc <= k < pc + 1 + n) ==> code[k] == old(code[k])
      invariant code[pc] == ByteOf(op) && forall k :: 0 <= k < n ==> code[pc + 1 + k] == operand[k]
    {
      code[pc + 1 + n] := operand[n];
    }
  }

  /** One turn, given what the instruction becomes. */
  lemma SStepTaken(src: Source, st: SState, i: Insn, o: Out, code': seq<byte>)
    requires st.pc < |st.code| && Decode(st.code, st.pc) == Some(i) && SpecInsn(src, i, st.stack, st.arena) == Some(o)
    requires o.op == i.op && o.arg == i.arg ==> code' == st.code
    requires o.op != i.op || o.arg != i.arg ==>
               Writable(o.op) && st.pc + 1 + OperandSize(o.op) <= |st.code|
               && code' == Patch(st.code, st.pc, o.op, o.arg)
    ensures SStep(src, st) == Some(SState(st.pc + Size(i), o.stack, code', o.arena))
  {
  }

  /** One instruction of the code buffer; None is an error, and leaves the buffer alone. */
  method SpecializeInsn(src: Source, code: array<byte>, pc: nat, stack: seq<Entry>, arena: Arena)
      returns (r: Option<(nat, seq<Entry>, Arena)>)
    requires pc < code.Length
    modifies code
    ensures var st' := SStep(src, SState(pc, stack, old(code[..]), arena));
            match r
            case None => st'.None? && code[..] == old(code[..])
            case Some((pc', stack', arena')) => st' == Some(SState(pc', stack', code[..], arena'))
  {
    var d := Decode(code[..], pc);
    if d.None? {
      return None;
    }
    var o := SpecInsn(src, d.value, stack, arena);
    if o.None? {
      return None;
    }
    DecodeFits(code[..], pc);
    SpecInsnShape(src, d.value, stack, arena);
    ghost var st := SState(pc, stack, code[..], arena);
    if o.value.op != d.value.op || o.value.arg != d.value.arg {
      WriteInsn(code, pc, o.value.op, o.value.arg);
    }
    SStepTaken(src, st, d.value, o.value, code[..]);
    return Some((pc + Size(d.value), o.value.stack, o.value.arena));
  }

  /** lttng_bytecode_specialize on the code buffer. */
  method Specialize(src: Source, code: array<byte>) returns (ok: bool, arena: Arena)
    modifies code
    ensures var f := SpecFrom(src, Start(old(code[..])));
            ok == f.Some? && (ok ==> code[..] == f.value.code && arena == f.value.arena)
  {
    var pc: nat, stack: seq<Entry> := 0, [];
    arena := Arena(map[], 0);
    ghost var goal := SpecFrom(src, Start(code[..]));
    while pc < code.Length
      invariant SpecFrom(src, SState(pc, stack, code[..], arena)) == goal
      decreases code.Length - pc
    {
      if AtReturn(code[..], pc) {
        return true, arena;
      }
      var r := SpecializeInsn(src, code, pc, stack, arena);
      if r.None? {
        return false, arena;
      }
      pc, stack, arena := r.value.0, r.value.1, r.value.2;
    }
    return false, arena;
  }

  /** The rest of the pass leaves the bytes before its position alone. */
  lemma {:induction false} SpecFromPrefix(src: Source, st: SState)
    requires st.pc <= |st.code| && SpecFrom(src, st).Some?
    ensures SpecFrom(src, st).value.code[..st.pc] == st.code[..st.pc]
    decreases |st.code| - st.pc
  {
    if !AtReturn(st.code, st.pc) {
      var st' := SStep(src, st).value;
      DecodeFits(st.code, st.pc);
      SpecInsnShape(src, Decode(st.code, st.pc).value, st.stack, st.arena);
      SpecFromPrefix(src, st');
      var f := SpecFrom(src, st').value;
      assert st'.code[..st.pc] == st.code[..st.pc];
      assert f.code[..st.pc] == f.code[..st'.pc][..st.pc] == st'.code[..st'.pc][..st.pc] == st'.code[..st.pc];
    }
  }

  /** Lookup data once pushed stays as it is. */
  lemma {:induction false} SpecFromKeepsGids(src: Source, st: SState, k: nat)
    requires st.pc <= |st.code| && SpecFrom(src, st).Some? && st.arena.Valid() && k in st.arena.gids
    ensures k in SpecFrom(src, st).value.arena.gids && SpecFrom(src, st).value.arena.gids[k] == st.arena.gids[k]
    decreases |st.code| - st.pc
  {
    if !AtReturn(st.code, st.pc) {
      var st' := SStep(src, st).value;
      var i := Decode(st.code, st.pc).value;
      DecodeFits(st.code, st.pc);
      SpecInsnShape(src, i, st.stack, st.arena);
      SpecInsnKeepsGids(src, i, st.stack, st.arena);
      SpecFromKeepsGids(src, st', k);
    }
  }

  lemma SpecInsnKeepsGids(src: Source, i: Insn, stack: seq<Entry>, arena: Arena)
    requires SpecInsn(src, i, stack, arena).Some?
    ensures forall k :: k in arena.gids && arena.Valid() ==>
              k in SpecInsn(src, i, stack, arena).value.arena.gids
              && SpecInsn(src, i, stack, arena).value.arena.gids[k] == arena.gids[k]
  {}
}
