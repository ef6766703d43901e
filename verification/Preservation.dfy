/** Specialization preserves meaning: the rewritten program gives the outcome of a reference
    semantics of the original program, which looks fields up by name when it meets them, loads
    them by their described type, and picks comparators from the operands themselves. */
module Preservation {
  import opened Words
  import opened Opcodes
  import opened Validator
  import opened Fields
  import opened Specializer
  import opened Interpreter
  import opened Linked
  import opened StringCompare

  // ---- reference semantics of unspecialized code ----

  ghost function RefCompare(c: CmpOp, b: Value, a: Value): Res<Value> {
    if b.VInt? && a.VInt? then Ok(Bool(Holds(c, Order(b.v, a.v))))
    else if b.VStr? && a.VStr? then
      if (c == EQ || c == NE) && (b.s.lit.GlobLiteral? || a.s.lit.GlobLiteral?)
      then Ok(Bool(GlobHolds(b.s, a.s) == (c == EQ)))
      else if StrCmp(b.s, a.s).None? then Bad(Wild)
      else Ok(Bool(Holds(c, StrCmp(b.s, a.s).value)))
    else Bad(Error)
  }

  /** The field or context a name denotes, through the pointer on top of the stack. */
  function RefSymbol(env: Env, symtab: seq<byte>, off: nat, p: Pointer): Res<Value>
    requires env.Valid()
  {
    match SymbolAt(symtab, off)
    case None => Bad(Error)
    case Some(name) =>
      match p
      case Obj(_, _, _) => Bad(Error)
      case ContextRoot =>
        (match ContextIndexFrom(env.ctx, name, 0) case None => Bad(Error) case Some(idx) => ContextObj(env, idx))
      case PayloadRoot =>
        match Lookup(env.fields, name)
        case None => Bad(Error)
        case Some((k, _)) =>
          LookupIsLookup(env.fields, name, 0);
          match ObjTypeOf(env.fields[k].ty, false)
          case None => Bad(Error)
          case Some(ot) => PayloadObj(Some(env.slots[k]), ot, Some(env.fields[k].ty))
  }

  /** The element of the array or sequence a pointer designates. */
  function RefIndex(index: nat, p: Pointer): Res<Value> {
    match p
    case Obj(ArrayObj, SlotMem(SeqSlot(_, data)), Some(Array(e, length, _))) =>
      if !Bytewise(e) || index >= length then Bad(Error)
      else Ok(VPtr(Obj(ElemObjType(e).value, ElemMem(data, index * (e.size / 8)), None)))
    case Obj(SequenceObj, SlotMem(SeqSlot(len, data)), Some(Sequence(e, _))) =>
      if !Bytewise(e) || index * (e.size / 8) >= e.size * len then Bad(Error)
      else Ok(VPtr(Obj(ElemObjType(e).value, ElemMem(data, index * (e.size / 8)), None)))
    case Obj(ot, _, _) => if ot == ArrayObj || ot == SequenceObj then Bad(Wild) else Bad(Error)
    case _ => Bad(Error)
  }

  ghost function RefTop(env: Env, symtab: seq<byte>, i: Insn, a: Value): Res<Value>
    requires env.Valid()
  {
    match i.op
    case Unary(u) => if a.VInt? then Ok(UnaryResult(u, a.v)) else Bad(Error)
    case CastToS64 => if a.VInt? then Ok(a) else Bad(Error)
    case GetSymbol => if a.VPtr? then RefSymbol(env, symtab, i.arg, a.p) else Bad(Wild)
    case _ => if a.VPtr? then RefIndex(i.arg, a.p) else Bad(Wild)
  }

  /** One instruction of the reference machine; what specialization leaves alone is shared. */
  ghost function RefInsn(env: Env, symtab: seq<byte>, i: Insn, pc: nat, st: seq<Value>): Turn
    requires env.Valid()
  {
    var next := pc + Size(i);
    match i.op
    case Cmp(c) => if |st| < 2 then Halt(Stuck) else Folded(st, RefCompare(c, Bx(st), Ax(st)), next)
    case Unary(_) => if |st| < 1 then Halt(Stuck) else Replaced(st, RefTop(env, symtab, i, Ax(st)), next)
    case CastToS64 => if |st| < 1 then Halt(Stuck) else Replaced(st, RefTop(env, symtab, i, Ax(st)), next)
    case GetSymbol => if |st| < 1 then Halt(Stuck) else Replaced(st, RefTop(env, symtab, i, Ax(st)), next)
    case GetIndexU16 => if |st| < 1 then Halt(Stuck) else Replaced(st, RefTop(env, symtab, i, Ax(st)), next)
    case GetIndexU64 => if |st| < 1 then Halt(Stuck) else Replaced(st, RefTop(env, symtab, i, Ax(st)), next)
    case _ => StepInsn(env, i, pc, st)
  }

  ghost function RefRun(env: Env, code: seq<byte>, symtab: seq<byte>, st: RState): Outcome
    requires env.Valid()
    decreases |code| - st.pc
  {
    match RefStep(env, code, symtab, st)
    case Halt(o) => o
    case Goto(pc, stack) => if pc <= st.pc then Stuck else RefRun(env, code, symtab, RState(pc, stack))
  }

  // ---- what the specializer knows about run-time values ----

  predicate LoadOk(load: Load, p: Pointer) {
    match load
    case RootPayload => p.PayloadRoot?
    case RootContext => p.ContextRoot?
    case Object(ot, f) => p.Obj? && p.ot == ot && (ot == ArrayObj || ot == SequenceObj ==> p.fty == f)
    case _ => false
  }

  predicate EntryOk(e: Entry, v: Value) {
    match e.ty
    case S64 => v.VInt?
    case U64 => v.VInt?
    case Str => v.VStr? && !v.s.lit.GlobLiteral?
    case StarGlob => v.VStr? && v.s.lit.GlobLiteral?
    case Ptr => v.VPtr? && LoadOk(e.load, v.p)
    case Unknown => false
  }

  ghost predicate Known(es: seq<Entry>, vs: seq<Value>) {
    |es| == |vs| && forall k :: 0 <= k < |es| ==> EntryOk(es[k], vs[k])
  }

  /** Both operands of a comparator are integers, or both are strings. */
  predicate SameClass(ax: RegType, bx: RegType) {
    || (ax == S64 && bx == S64)
    || ((ax == Str || ax == StarGlob) && (bx == Str || bx == StarGlob))
  }

  /** A comparator whose operands the specializer knows to be of one class, and not LE. */
  predicate CompareSafe(i: Insn, es: seq<Entry>) {
    i.op.Cmp? ==> i.op.c != LE && |es| >= 2 && SameClass(Ax(es).ty, Bx(es).ty)
  }

  /** The offset of the element wraps to one that a sequence can hold. */
  predicate Wraps(e: Elem, index: nat)
    requires Bytewise(e)
  {
    var offset := index * (e.size / 8);
    offset >= MODULUS && Word(offset) < e.size * MAX_COUNT
  }

  /** A constant index into a sequence whose offset does not. */
  predicate IndexSafe(i: Insn, es: seq<Entry>) {
    (i.op.GetIndexU16? || i.op.GetIndexU64?) && |es| >= 1 ==>
      match Ax(es).load
      case Object(SequenceObj, Some(Sequence(e, _))) => Bytewise(e) ==> !Wraps(e, i.arg)
      case _ => true
  }

  // ---- one instruction ----

  /** How the specialized instruction agrees with the original one. */
  ghost predicate Agrees(env: Env, symtab: seq<byte>, i: Insn, o: Out, pc: nat, es: seq<Entry>, vs: seq<Value>)
    requires env.Valid()
  {
    var t := StepInsn(env, Insn(o.op, o.arg, i.str), pc, vs);
    && t == RefInsn(env, symtab, i, pc, vs)
    && (t.Goto? ==> || (t.pc == pc + Size(i) && Known(o.stack, t.stack))
                    || (i.op.Logical? && t.pc == i.arg && Known(es, t.stack)))
  }

  /** Lookup data pushed for an instruction is still there when the program runs. */
  ghost predicate Kept(o: Out, env: Env) {
    forall k :: k in o.arena.gids ==> k in env.gids && env.gids[k] == o.arena.gids[k]
  }

  lemma CompareAgrees(env: Env, src: Source, i: Insn, o: Out, pc: nat, es: seq<Entry>, arena: Arena, vs: seq<Value>)
    requires env.Valid() && Known(es, vs) && CompareSafe(i, es) && i.op.Cmp?
    requires SpecInsn(src, i, es, arena) == Some(o) && Size(Insn(o.op, o.arg, i.str)) == Size(i)
    ensures Agrees(env, src.symtab, i, o, pc, es, vs)
  {
    var b, a := Bx(vs), Ax(vs);
    var r := RefCompare(i.op.c, b, a);
    assert r == BinaryResult(o.op, b, a, StringOrder(b, a), GlobOf(b, a));
    assert r.Ok? ==> r.value.VInt?;
  }

  lemma LoadAgrees(env: Env, src: Source, i: Insn, o: Out, pc: nat, es: seq<Entry>, arena: Arena, vs: seq<Value>)
    requires env.Valid() && Known(es, vs) && i.op.LoadField?
    requires SpecInsn(src, i, es, arena) == Some(o) && Size(Insn(o.op, o.arg, i.str)) == Size(i)
    ensures Agrees(env, src.symtab, i, o, pc, es, vs)
  {
    var ot := Ax(es).load.ot;
    if Ax(es).ty == Ptr {
      var r := LoadMem(ot, Ax(vs).p.mem);
      assert TopResult(env, Insn(o.op, o.arg, i.str), Ax(vs)) == r;
      assert r.Ok? ==> EntryOk(Ax(o.stack), r.value);
    }
  }

  /** Reading at the resolved offset yields the field the name denotes. */
  lemma PayloadSymbol(env: Env, src: Source, i: Insn, o: Out, es: seq<Entry>, arena: Arena, p: Pointer)
    requires env.Valid() && env.fields == src.fields && p.PayloadRoot?
    requires |es| >= 1 && Ax(es).ty == Ptr && LoadOk(Ax(es).load, p)
    requires SpecSymbol(src, i, es, arena) == Some(o) && Kept(o, env)
    ensures o.arg in env.gids
    ensures var r := RefSymbol(env, src.symtab, i.arg, p);
            r == DynamicGetIndex(env, env.gids[o.arg], p) && (r.Ok? ==> EntryOk(Ax(o.stack), r.value))
  {
    var name := SymbolAt(src.symtab, i.arg).value;
    LookupIsLookup(src.fields, name, 0);
    SlotAtOffset(env.fields, env.slots, Lookup(src.fields, name).value.0);
    assert o.arg in o.arena.gids;
  }

  lemma ContextSymbol(env: Env, src: Source, i: Insn, o: Out, es: seq<Entry>, arena: Arena, p: Pointer)
    requires env.Valid() && env.ctx == src.ctx && !p.PayloadRoot?
    requires |es| >= 1 && Ax(es).ty == Ptr && LoadOk(Ax(es).load, p)
    requires SpecSymbol(src, i, es, arena) == Some(o) && Kept(o, env)
    ensures o.arg in env.gids
    ensures var r := RefSymbol(env, src.symtab, i.arg, p);
            r == DynamicGetIndex(env, env.gids[o.arg], p) && (r.Ok? ==> EntryOk(Ax(o.stack), r.value))
  {
    assert o.arg in o.arena.gids;
  }

  lemma SymbolAgrees(env: Env, src: Source, i: Insn, o: Out, pc: nat, es: seq<Entry>, arena: Arena, vs: seq<Value>)
    requires env.Valid() && env.fields == src.fields && env.ctx == src.ctx && Known(es, vs) && i.op.GetSymbol?
    requires SpecInsn(src, i, es, arena) == Some(o) && Size(Insn(o.op, o.arg, i.str)) == Size(i) && Kept(o, env)
    ensures Agrees(env, src.symtab, i, o, pc, es, vs)
  {
    if Ax(es).ty == Ptr {
      var p := Ax(vs).p;
      if p.PayloadRoot? {
        PayloadSymbol(env, src, i, o, es, arena, p);
      } else {
        ContextSymbol(env, src, i, o, es, arena, p);
      }
      assert RefInsn(env, src.symtab, i, pc, vs) == Replaced(vs, RefSymbol(env, src.symtab, i.arg, p), pc + Size(i));
    }
  }

  /** Guard and offset of an element in 64 bits, against those of the index itself. */
  lemma ElemOffset(e: Elem, index: nat, len: count)
    requires Bytewise(e)
    ensures var w := e.size / 8;
            if index * w < MODULUS then Word(index * w) == index * w
            else index * w >= e.size * len && (!Wraps(e, index) ==> Word(index * w) >= e.size * len)
  {
    assert e.size * len <= e.size * MAX_COUNT < MODULUS;
  }

  /** The element reached through its record is the one of that index, or both fail alike. */
  lemma ElemAgrees(env: Env, ty: FieldType, index: nat, p: Pointer)
    requires env.Valid() && p.Obj? && p.fty == Some(ty)
    requires (p.ot == ArrayObj && ty.Array? && index < ty.length) || (p.ot == SequenceObj && ty.Sequence?)
    requires Bytewise(ty.elem) && (ty.Sequence? ==> !Wraps(ty.elem, index))
    ensures DynamicGetIndex(env, ElemGid(ty.elem, index), p) == RefIndex(index, p)
  {
    if p.mem.SlotMem? && p.mem.slot.SeqSlot? {
      ElemOffset(ty.elem, index, p.mem.slot.len);
    }
  }

  lemma IndexAgrees(env: Env, src: Source, i: Insn, o: Out, pc: nat, es: seq<Entry>, arena: Arena, vs: seq<Value>)
    requires env.Valid() && Known(es, vs) && (i.op.GetIndexU16? || i.op.GetIndexU64?) && IndexSafe(i, es)
    requires SpecInsn(src, i, es, arena) == Some(o) && Size(Insn(o.op, o.arg, i.str)) == Size(i) && Kept(o, env)
    ensures Agrees(env, src.symtab, i, o, pc, es, vs)
  {
    assert o.arg in o.arena.gids;
    if Ax(es).ty == Ptr {
      assert LoadOk(Ax(es).load, Ax(vs).p);
      ElemAgrees(env, Ax(es).load.fty.value, i.arg, Ax(vs).p);
      var r := RefIndex(i.arg, Ax(vs).p);
      assert r.Ok? ==> EntryOk(Ax(o.stack), r.value);
    }
  }

  /** Instructions that push one operand. */
  lemma PushAgrees(env: Env, src: Source, i: Insn, o: Out, pc: nat, es: seq<Entry>, arena: Arena, vs: seq<Value>)
    requires env.Valid() && Known(es, vs)
    requires IsPush(i.op)
    requires SpecInsn(src, i, es, arena) == Some(o)
    ensures Agrees(env, src.symtab, i, o, pc, es, vs)
  {
    if i.op.LoadRef? {
      ReferenceKnown(env, i.op.r, i.arg);
    }
  }

  /** Two-operand instructions that came in specialized already. */
  lemma BinaryAgrees(env: Env, src: Source, i: Insn, o: Out, pc: nat, es: seq<Entry>, arena: Arena, vs: seq<Value>)
    requires env.Valid() && Known(es, vs) && IsBinary(i.op) && i.arg == 0
    requires SpecInsn(src, i, es, arena) == Some(o)
    ensures Agrees(env, src.symtab, i, o, pc, es, vs)
  {
    BinaryKnown(i.op, Bx(vs), Ax(vs), StringOrder(Bx(vs), Ax(vs)), GlobOf(Bx(vs), Ax(vs)));
  }

  /** Jumps, casts and unary operators. */
  lemma PlainAgrees(env: Env, src: Source, i: Insn, o: Out, pc: nat, es: seq<Entry>, arena: Arena, vs: seq<Value>)
    requires env.Valid() && Known(es, vs)
    requires i.op.Logical? || i.op.CastToS64? || i.op.CastNop? || i.op.GetAppContextRoot? || i.op.CmpDoubleS64?
             || i.op.Unary? || i.op.UnaryS64? || i.op.BitNot?
    requires SpecInsn(src, i, es, arena) == Some(o) && Size(Insn(o.op, o.arg, i.str)) == Size(i)
    ensures Agrees(env, src.symtab, i, o, pc, es, vs)
  {}

  lemma ReferenceKnown(env: Env, r: RefOp, arg: nat)
    requires env.Valid()
    ensures LoadReference(env, r, arg).Ok? ==> EntryOk(Plain(RefType(r)), LoadReference(env, r, arg).value)
  {}

  lemma BinaryKnown(op: Op, b: Value, a: Value, order: Option<int>, glob: bool)
    ensures BinaryResult(op, b, a, order, glob).Ok? ==> BinaryResult(op, b, a, order, glob).value.VInt?
  {}

  /** Every instruction of a linked program agrees with its original. */
  lemma InsnAgrees(env: Env, src: Source, i: Insn, o: Out, pc: nat, es: seq<Entry>, arena: Arena, vs: seq<Value>)
    requires env.Valid() && env.fields == src.fields && env.ctx == src.ctx
    requires Known(es, vs) && CompareSafe(i, es) && IndexSafe(i, es) && !IsReturn(i.op)
    requires OperandSize(i.op) == 0 ==> i.arg == 0
    requires SpecInsn(src, i, es, arena) == Some(o) && Size(Insn(o.op, o.arg, i.str)) == Size(i) && Kept(o, env)
    ensures Agrees(env, src.symtab, i, o, pc, es, vs)
  {
    match i.op
    case Cmp(_) => CompareAgrees(env, src, i, o, pc, es, arena, vs);
    case LoadField => LoadAgrees(env, src, i, o, pc, es, arena, vs);
    case GetSymbol => SymbolAgrees(env, src, i, o, pc, es, arena, vs);
    case GetIndexU16 => IndexAgrees(env, src, i, o, pc, es, arena, vs);
    case GetIndexU64 => IndexAgrees(env, src, i, o, pc, es, arena, vs);
    case _ =>
      if IsBinary(i.op) {
        BinaryAgrees(env, src, i, o, pc, es, arena, vs);
      } else if IsPush(i.op) {
        PushAgrees(env, src, i, o, pc, es, arena, vs);
      } else {
        PlainAgrees(env, src, i, o, pc, es, arena, vs);
      }
  }

  // ---- whole programs ----

  ghost predicate Reached(code: seq<byte>, src: Source, v: VState, s: SState)
    requires IsLinked(code, src)
  {
    LinkedInStep(code, src);
    Reaches(code, src, INIT, Start(code), v, s)
  }

  predicate LoadFits(l: Load, l': Load) {
    match l
    case RootPayload => l' == RootPayload
    case RootContext => l' == RootContext
    case Object(ot, f) => l'.Object? && l'.ot == ot && (ot == ArrayObj || ot == SequenceObj ==> l'.fty == f)
    case _ => true
  }

  /** The entries are of one class, and pointers have one target. */
  predicate Fits(e: Entry, e': Entry) {
    match e.ty
    case S64 => IsInt(e'.ty)
    case U64 => IsInt(e'.ty)
    case Ptr => (e'.ty == Ptr && LoadFits(e.load, e'.load)) || e.load == NoLoad || e.load == RootApp
    case Unknown => true
    case _ => e'.ty == e.ty
  }

  /** That is all a value known for the one needs to be known for the other. */
  lemma FitsExactly(e: Entry, e': Entry)
    ensures Fits(e, e') <==> forall v :: EntryOk(e, v) ==> EntryOk(e', v)
  {
    if !Fits(e, e') {
      var v := match e.ty
        case S64 => VInt(0)
        case U64 => VInt(0)
        case Str => VStr(StrReg([], NotLiteral))
        case StarGlob => VStr(StrReg([], GlobLiteral))
        case _ => VPtr(match e.load case RootPayload => PayloadRoot case RootContext => ContextRoot
                       case Object(ot, f) => Obj(ot, CharMem(None), f) case _ => PayloadRoot);
      assert EntryOk(e, v) && !EntryOk(e', v);
    }
  }

  predicate StackFits(es: seq<Entry>, es': seq<Entry>) {
    |es| == |es'| && forall k :: 0 <= k < |es| ==> Fits(es[k], es'[k])
  }

  lemma KnownFits(es: seq<Entry>, es': seq<Entry>, vs: seq<Value>)
    requires Known(es, vs) && StackFits(es, es')
    ensures Known(es', vs)
  {
    forall k | 0 <= k < |es'| ensures EntryOk(es'[k], vs[k]) {
      FitsExactly(es[k], es'[k]);
    }
  }

  /** What a caller can check of a linked program before running it: no LE comparator, operands
      of one class at every comparator, no sequence index that wraps, and at every jump target
      entries of the classes and pointer targets that the specializer had at the jump. */
  ghost predicate Specializable(code: seq<byte>, src: Source)
    requires IsLinked(code, src)
  {
    && (forall v, s :: Reached(code, src, v, s) && v.pc < |code| && Decode(code, v.pc).Some? ==>
          CompareSafe(Decode(code, v.pc).value, s.stack) && IndexSafe(Decode(code, v.pc).value, s.stack))
    && (forall v, s, v', s' :: Reached(code, src, v, s) && Reached(code, src, v', s') && JumpsTo(code, v.pc, v'.pc) ==>
          StackFits(s.stack, s'.stack))
  }

  ghost predicate JumpsTo(code: seq<byte>, pc: nat, target: nat) {
    pc < |code| && Decode(code, pc).Some? && Decode(code, pc).value.op.Logical? && Decode(code, pc).value.arg == target
  }

  /** The pair of pass states behind the next instruction. */
  lemma FallThrough(code: seq<byte>, src: Source, v: VState, s: SState) returns (v': VState, s': SState)
    requires IsLinked(code, src) && Reached(code, src, v, s) && InStep(code, src, v, s)
    requires Decode(code, v.pc).Some? && !IsReturn(Decode(code, v.pc).value.op)
    ensures Reached(code, src, v', s') && v'.pc == v.pc + Size(Decode(code, v.pc).value)
    ensures SpecInsn(src, Decode(code, v.pc).value, s.stack, s.arena).Some?
    ensures s'.stack == SpecInsn(src, Decode(code, v.pc).value, s.stack, s.arena).value.stack
  {
    LinkedInStep(code, src);
    DecodeSuffix(code, s.code, v.pc);
    ReachesNext(code, src, INIT, Start(code), v, s);
    v', s' := VStep(code, src.symtab, v).st, SStep(src, s).value;
  }

  /** The pair of pass states behind a jump target. */
  lemma Jump(code: seq<byte>, src: Source, v: VState, s: SState) returns (v': VState, s': SState)
    requires IsLinked(code, src) && Reached(code, src, v, s) && InStep(code, src, v, s)
    requires Decode(code, v.pc).Some? && Decode(code, v.pc).value.op.Logical?
    ensures Reached(code, src, v', s') && JumpsTo(code, v.pc, v'.pc) && v.pc < v'.pc
  {
    LinkedInStep(code, src);
    v' := SkipTargetVisited(code, src.symtab, v);
    ReachesProperties(code, src, INIT, Start(code), v, s);
    VisitsTransitive(code, src.symtab, INIT, v, v');
    s' := PassesMeet(code, src, INIT, Start(code), v');
  }

  /** A run state both machines can be in, as the specializer knew it. */
  ghost predicate Tracked(code: seq<byte>, src: Source, st: RState, v: VState, s: SState)
    requires IsLinked(code, src)
  {
    Reached(code, src, v, s) && v.pc == st.pc && Known(s.stack, st.stack)
  }

  ghost function RefStep(env: Env, code: seq<byte>, symtab: seq<byte>, st: RState): Turn
    requires env.Valid()
  {
    if st.pc >= |code| || Decode(code, st.pc).None? then Halt(Stuck)
    else RefInsn(env, symtab, Decode(code, st.pc).value, st.pc, st.stack)
  }

  lemma ReachedInStep(code: seq<byte>, src: Source, v: VState, s: SState)
    requires IsLinked(code, src) && Reached(code, src, v, s)
    ensures InStep(code, src, v, s) && SpecFrom(src, s) == SpecFrom(src, Start(code))
  {
    LinkedInStep(code, src);
    ReachesProperties(code, src, INIT, Start(code), v, s);
  }

  /** What stands at a reached offset of both programs. */
  lemma InsnAt(code: seq<byte>, src: Source, v: VState, s: SState)
    requires IsLinked(code, src) && Reached(code, src, v, s)
    ensures InStep(code, src, v, s)
    ensures v.pc < |code| == |FinalCode(code, src)| && Decode(code, v.pc).Some?
    ensures var i := Decode(code, v.pc).value;
            if IsReturn(i.op) then Decode(FinalCode(code, src), v.pc) == Some(i)
            else
              var o := SpecInsn(src, i, s.stack, s.arena);
              && o.Some? && Decode(FinalCode(code, src), v.pc) == Some(Insn(o.value.op, o.value.arg, i.str))
              && (forall k :: k in o.value.arena.gids ==>
                    k in FinalGids(code, src) && FinalGids(code, src)[k] == o.value.arena.gids[k])
  {
    ReachedInStep(code, src, v, s);
    InStepInsn(code, src, v, s);
  }

  /** The tracked state after an agreed turn. */
  lemma Continue(code: seq<byte>, src: Source, v: VState, s: SState, t: Turn) returns (v': VState, s': SState)
    requires IsLinked(code, src) && Specializable(code, src) && Reached(code, src, v, s) && InStep(code, src, v, s)
    requires v.pc < |code| && Decode(code, v.pc).Some? && !IsReturn(Decode(code, v.pc).value.op)
    requires t.Goto? && SpecInsn(src, Decode(code, v.pc).value, s.stack, s.arena).Some?
    requires var i := Decode(code, v.pc).value;
             || (t.pc == v.pc + Size(i) && Known(SpecInsn(src, i, s.stack, s.arena).value.stack, t.stack))
             || (i.op.Logical? && t.pc == i.arg && Known(s.stack, t.stack))
    ensures v.pc < t.pc && Tracked(code, src, RState(t.pc, t.stack), v', s')
  {
    var i := Decode(code, v.pc).value;
    if t.pc == v.pc + Size(i) && Known(SpecInsn(src, i, s.stack, s.arena).value.stack, t.stack) {
      v', s' := FallThrough(code, src, v, s);
    } else {
      v', s' := Jump(code, src, v, s);
      KnownFits(s.stack, s'.stack, t.stack);
    }
  }

  lemma TurnsAgree(code: seq<byte>, src: Source, env: Env, st: RState, v: VState, s: SState)
    requires IsLinked(code, src) && Specializable(code, src) && Tracked(code, src, st, v, s) && InStep(code, src, v, s)
    requires env.Valid() && env.fields == src.fields && env.ctx == src.ctx && env.gids == FinalGids(code, src)
    requires v.pc < |code| && Decode(code, v.pc).Some? && !IsReturn(Decode(code, v.pc).value.op)
    ensures var t, i := Step(env, FinalCode(code, src), st), Decode(code, v.pc).value;
            && t == RefStep(env, code, src.symtab, st)
            && SpecInsn(src, i, s.stack, s.arena).Some?
            && (t.Goto? ==>
                  || (t.pc == v.pc + Size(i) && Known(SpecInsn(src, i, s.stack, s.arena).value.stack, t.stack))
                  || (i.op.Logical? && t.pc == i.arg && Known(s.stack, t.stack)))
  {
    InsnAt(code, src, v, s);
    var o := SpecInsn(src, Decode(code, v.pc).value, s.stack, s.arena).value;
    assert Kept(o, env);
    StepAgrees(code, src, env, st, v, s, o);
  }

  lemma ReturnsAgree(env: Env, code: seq<byte>, final: seq<byte>, symtab: seq<byte>, st: RState)
    requires env.Valid() && st.pc < |code| == |final| && Decode(code, st.pc).Some?
    requires IsReturn(Decode(code, st.pc).value.op) && Decode(final, st.pc) == Decode(code, st.pc)
    ensures Step(env, final, st) == RefStep(env, code, symtab, st) && Step(env, final, st).Halt?
  {}

  /** One step of both machines from a tracked state. */
  lemma StepsAgree(code: seq<byte>, src: Source, env: Env, st: RState, v: VState, s: SState)
      returns (v': VState, s': SState)
    requires IsLinked(code, src) && Specializable(code, src) && Tracked(code, src, st, v, s)
    requires env.Valid() && env.fields == src.fields && env.ctx == src.ctx && env.gids == FinalGids(code, src)
    ensures var t := Step(env, FinalCode(code, src), st);
            && t == RefStep(env, code, src.symtab, st)
            && (t.Goto? ==> st.pc < t.pc && Tracked(code, src, RState(t.pc, t.stack), v', s'))
  {
    InsnAt(code, src, v, s);
    v', s' := v, s;
    if IsReturn(Decode(code, v.pc).value.op) {
      ReturnsAgree(env, code, FinalCode(code, src), src.symtab, st);
    } else {
      TurnsAgree(code, src, env, st, v, s);
      var t := Step(env, FinalCode(code, src), st);
      if t.Goto? {
        v', s' := Continue(code, src, v, s, t);
      }
    }
  }

  /** From every tracked state both machines end alike. */
  lemma {:induction false} RunsAgree(code: seq<byte>, src: Source, env: Env, st: RState, v: VState, s: SState)
    requires IsLinked(code, src) && Specializable(code, src) && Tracked(code, src, st, v, s)
    requires env.Valid() && env.fields == src.fields && env.ctx == src.ctx && env.gids == FinalGids(code, src)
    ensures Run(env, FinalCode(code, src), st) == RefRun(env, code, src.symtab, st)
    decreases |code| - st.pc
  {
    var v', s' := StepsAgree(code, src, env, st, v, s);
    InsnAt(code, src, v, s);
    var t := Step(env, FinalCode(code, src), st);
    if t.Goto? {
      RunsAgree(code, src, env, RState(t.pc, t.stack), v', s');
    }
  }

  lemma StepAgrees(code: seq<byte>, src: Source, env: Env, st: RState, v: VState, s: SState, o: Out)
    requires IsLinked(code, src) && Specializable(code, src) && Reached(code, src, v, s) && InStep(code, src, v, s)
    requires env.Valid() && env.fields == src.fields && env.ctx == src.ctx && Kept(o, env)
    requires v.pc == st.pc && Known(s.stack, st.stack)
    requires Decode(code, v.pc).Some? && !IsReturn(Decode(code, v.pc).value.op)
    requires SpecInsn(src, Decode(code, v.pc).value, s.stack, s.arena) == Some(o)
    ensures Agrees(env, src.symtab, Decode(code, v.pc).value, o, st.pc, s.stack, st.stack)
  {
    var i := Decode(code, v.pc).value;
    EmptyOperand(code, v.pc);
    DecodeSuffix(code, s.code, v.pc);
    InStepNext(code, src, v, s);
    SStepWrites(src, s);
    InsnAgrees(env, src, i, o, st.pc, s.stack, s.arena, st.stack);
  }

  /** A linked program that meets the static condition accepts, rejects or fails exactly as
      its original does under the reference semantics, on every event. */
  lemma SpecializationPreservesMeaning(code: seq<byte>, src: Source, env: Env)
    requires IsLinked(code, src) && Specializable(code, src)
    requires env.Valid() && env.fields == src.fields && env.ctx == src.ctx && env.gids == FinalGids(code, src)
    ensures Run(env, FinalCode(code, src), RState(0, [])) == RefRun(env, code, src.symtab, RState(0, []))
  {
    RunsAgree(code, src, env, RState(0, []), INIT, Start(code));
  }
}
