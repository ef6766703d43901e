/** Type and memory safety of programs as written: when a run never meets an operand of another
    kind and never reads outside the event. */
module Safety {
  import opened Words
  import opened Opcodes
  import opened Validator
  import opened Fields
  import opened Specializer
  import opened Interpreter
  import opened Linked
  import opened StringCompare
  import opened Glob
  import opened Soundness
  import opened Preservation
  import opened Registers
  import opened RegisterRuns

  // Events and pointers of the described types

  /** The elements of an array or a sequence are there; only text may be missing. */
  predicate HoldsElems(e: Elem, len: nat, data: Option<seq<byte>>, text: bool) {
    if data.None? then text else Bytewise(e) ==> |data.value| == len * (e.size / 8)
  }

  predicate TypedSlot(ty: FieldType, slot: Slot) {
    match ty
    case Integer(_) => slot.IntSlot?
    case Enum(_) => slot.IntSlot?
    case StringT => slot.StrSlot?
    case Array(e, length, text) => slot.SeqSlot? && slot.len == length && HoldsElems(e, length, slot.data, text)
    case Sequence(e, text) => slot.SeqSlot? && HoldsElems(e, slot.len, slot.data, text)
    case _ => true
  }

  /** Every field of the event has a value of its described type. */
  ghost predicate TypedEvent(env: Env)
    requires env.Valid()
  {
    forall k :: 0 <= k < |env.fields| && !env.fields[k].nofilter ==> TypedSlot(env.fields[k].ty, env.slots[k])
  }

  predicate ElementsOf(mem: Mem, e: Elem) {
    && mem.SlotMem? && mem.slot.SeqSlot? && mem.slot.data.Some?
    && Bytewise(e) && |mem.slot.data.value| == mem.slot.len * (e.size / 8)
  }

  /** An integer of the width that the object type reads. */
  predicate IntegerAt(mem: Mem, w: nat) {
    match mem
    case ElemMem(Some(d), off) => off + w <= |d|
    case IntMem(_) => w == 8
    case SlotMem(IntSlot(_)) => w == 8
    case _ => false
  }

  /** What the pointer addresses is of its object type, and inside the event. */
  predicate SafePointer(p: Pointer) {
    p.Obj? ==>
      if p.ot == StringObj then p.mem.CharMem?
      else if p.ot == StringSequence then
        && p.mem.SlotMem? && p.mem.slot.SeqSlot?
        && (p.mem.slot.data.Some? ==> p.mem.slot.len <= |p.mem.slot.data.value|)
      else if p.ot == ArrayObj then
        p.fty.Some? && p.fty.value.Array? && ElementsOf(p.mem, p.fty.value.elem) && p.mem.slot.len == p.fty.value.length
      else if p.ot == SequenceObj then p.fty.Some? && p.fty.value.Sequence? && ElementsOf(p.mem, p.fty.value.elem)
      else IntegerAt(p.mem, ElemWidth(p.ot))
  }

  ghost predicate SafeValues(vs: seq<Value>) {
    forall k :: 0 <= k < |vs| ==> vs[k].VPtr? ==> SafePointer(vs[k].p)
  }

  // One instruction as written

  predicate IsText(t: RegType) { t == Str || t == StarGlob }

  /** What a caller can check at an instruction: its operands are, by the specializer's types, of
      the class it works on, and it is none of the loads by offset. */
  predicate Suited(i: Insn, es: seq<Entry>) {
    match i.op
    case CmpString(_) => |es| >= 2 && IsText(Bx(es).ty) && IsText(Ax(es).ty)
    case CmpGlob(_) => |es| >= 2 && IsText(Bx(es).ty) && IsText(Ax(es).ty)
    case CmpS64(_) => |es| >= 2 && IsInt(Bx(es).ty) && IsInt(Ax(es).ty)
    case UnaryS64(_) => |es| >= 1 && IsInt(Ax(es).ty)
    case BitNot => |es| >= 1 && IsInt(Ax(es).ty)
    case Logical(_) => |es| >= 1 && IsInt(Ax(es).ty)
    case ReturnS64 => |es| >= 1 && IsInt(Ax(es).ty)
    case LoadField => |es| >= 1 && Ax(es).ty == Ptr
    case GetSymbol => |es| >= 1 && Ax(es).ty == Ptr
    case GetIndexU16 => |es| >= 1 && Ax(es).ty == Ptr
    case GetIndexU64 => |es| >= 1 && Ax(es).ty == Ptr
    case LoadRef(_) => false
    case LoadTyped(_) => false
    case _ => true
  }

  predicate PastEnd(p: Pointer, index: nat) {
    p.Obj? && p.ot == SequenceObj && p.mem.SlotMem? && p.mem.slot.SeqSlot? && index >= p.mem.slot.len
  }

  /** A constant index at or beyond the length of the sequence it is applied to. */
  predicate Beyond(i: Insn, vs: seq<Value>) {
    (i.op.GetIndexU16? || i.op.GetIndexU64?) && |vs| >= 1 && Ax(vs).VPtr? && PastEnd(Ax(vs).p, i.arg)
  }

  /** A comparison of two plain literals that read alike up to a lone backslash at the end of each. */
  ghost predicate Overreads(i: Insn, vs: seq<Value>) {
    && (i.op.Cmp? || i.op.CmpString?) && |vs| >= 2 && Bx(vs).VStr? && Ax(vs).VStr?
    && Bx(vs).s.lit.PlainLiteral? && Ax(vs).s.lit.PlainLiteral?
    && DangleAlike(Cut(Bx(vs).s.data), Cut(Ax(vs).s.data))
  }

  lemma OrderIsKnown(b: StrReg, a: StrReg)
    ensures StrCmp(b, a).None? <==>
              b.lit.PlainLiteral? && a.lit.PlainLiteral? && DangleAlike(Cut(b.data), Cut(a.data))
  {
    OverreadExactly(b, 0, a, 0);
    assert Rest(b.data, 0) == Cut(b.data) && Rest(a.data, 0) == Cut(a.data);
  }

  lemma SymbolIsSafe(env: Env, symtab: seq<byte>, off: nat, p: Pointer)
    requires env.Valid() && TypedEvent(env)
    ensures var x := RefSymbol(env, symtab, off, p);
            x != Bad(Wild) && (x.Ok? ==> x.value.VPtr? && SafePointer(x.value.p))
  {
    if SymbolAt(symtab, off).Some? && p.PayloadRoot? {
      LookupIsLookup(env.fields, SymbolAt(symtab, off).value, 0);
    }
  }

  lemma IndexIsSafe(index: nat, p: Pointer)
    requires SafePointer(p)
    ensures var x := RefIndex(index, p);
            && x != Bad(Wild)
            && (x.Ok? ==> x.value.VPtr? && (SafePointer(x.value.p) <==> !PastEnd(p, index)))
  {
    if p.Obj? && p.mem.SlotMem? && p.mem.slot.SeqSlot? && p.fty.Some? && (p.fty.value.Array? || p.fty.value.Sequence?) {
      var e := p.fty.value.elem;
      if Bytewise(e) {
        assert ElemWidth(ElemObjType(e).value) == e.size / 8;
        ScaledOrder(p.mem.slot.len, index + 1, e.size / 8);
        assert index * (e.size / 8) + e.size / 8 == (index + 1) * (e.size / 8);
      }
    }
  }

  lemma LoadIsSafe(p: Pointer)
    requires p.Obj? && SafePointer(p)
    ensures LoadMem(p.ot, p.mem) != Bad(Wild) && (LoadMem(p.ot, p.mem).Ok? ==> !LoadMem(p.ot, p.mem).value.VPtr?)
  {
  }

  /** On a typed event and safe pointers, a suited instruction as written finds its operands and
      stays inside the event and the program exactly unless it compares two literals that end with
      a lone backslash alike; its pointers stay safe exactly unless it indexes a sequence at or
      beyond its length. */
  lemma InsnIsSafe(env: Env, symtab: seq<byte>, i: Insn, pc: nat, es: seq<Entry>, vs: seq<Value>)
    requires env.Valid() && TypedEvent(env) && Known(es, vs) && Suited(i, es) && SafeValues(vs)
    ensures var t := RefInsn(env, symtab, i, pc, vs);
            (t == Halt(Wild) <==> Overreads(i, vs)) && (t.Goto? ==> (SafeValues(t.stack) <==> !Beyond(i, vs)))
  {
    if |vs| >= 1 {
      assert EntryOk(Ax(es), Ax(vs));
    }
    if |vs| >= 2 {
      assert EntryOk(Bx(es), Bx(vs));
    }
    if IsPointerOp(i.op) {
      PointerOpIsSafe(env, symtab, i, pc, vs);
    } else if IsBinary(i.op) || i.op.Cmp? {
      FoldIsSafe(env, symtab, i, pc, vs);
    } else {
      OtherIsSafe(env, symtab, i, pc, vs);
    }
  }

  lemma FoldIsSafe(env: Env, symtab: seq<byte>, i: Insn, pc: nat, vs: seq<Value>)
    requires env.Valid() && SafeValues(vs) && (IsBinary(i.op) || i.op.Cmp?)
    requires |vs| >= 2 && (i.op.CmpString? || i.op.CmpGlob?) ==> Bx(vs).VStr? && Ax(vs).VStr?
    requires |vs| >= 2 && i.op.CmpS64? ==> Bx(vs).VInt? && Ax(vs).VInt?
    ensures var t := RefInsn(env, symtab, i, pc, vs);
            (t == Halt(Wild) <==> Overreads(i, vs)) && (t.Goto? ==> SafeValues(t.stack))
  {
    if |vs| >= 2 {
      var b, a := Bx(vs), Ax(vs);
      if b.VStr? && a.VStr? {
        OrderIsKnown(b.s, a.s);
      }
      BinaryKnown(i.op, b, a, StringOrder(b, a), GlobOf(b, a));
      var t := RefInsn(env, symtab, i, pc, vs);
      if t.Goto? {
        assert t.stack == SetAx(Pop(vs), Ax(t.stack)) && Ax(t.stack).VInt?;
      }
    }
  }

  lemma OtherIsSafe(env: Env, symtab: seq<byte>, i: Insn, pc: nat, vs: seq<Value>)
    requires env.Valid() && SafeValues(vs) && !IsBinary(i.op) && !i.op.Cmp? && !IsPointerOp(i.op)
    requires !i.op.LoadRef? && !i.op.LoadTyped?
    requires |vs| >= 1 && (i.op.UnaryS64? || i.op.BitNot? || i.op.Logical? || i.op.ReturnS64?) ==> Ax(vs).VInt?
    ensures var t := RefInsn(env, symtab, i, pc, vs); t != Halt(Wild) && (t.Goto? ==> SafeValues(t.stack))
  {
  }

  predicate IsPointerOp(op: Op) { op.GetSymbol? || op.GetIndexU16? || op.GetIndexU64? || op.LoadField? }

  lemma PointerOpIsSafe(env: Env, symtab: seq<byte>, i: Insn, pc: nat, vs: seq<Value>)
    requires env.Valid() && TypedEvent(env) && SafeValues(vs) && |vs| >= 1 && Ax(vs).VPtr? && IsPointerOp(i.op)
    ensures var t := RefInsn(env, symtab, i, pc, vs);
            t != Halt(Wild) && (t.Goto? ==> (SafeValues(t.stack) <==> !Beyond(i, vs)))
  {
    var p := Ax(vs).p;
    assert SafePointer(p);
    if i.op.LoadField? {
      if p.Obj? {
        LoadIsSafe(p);
      }
    } else if i.op.GetSymbol? {
      SymbolIsSafe(env, symtab, i.arg, p);
    } else {
      IndexIsSafe(i.arg, p);
    }
    var t := RefInsn(env, symtab, i, pc, vs);
    if t.Goto? {
      assert t.stack == SetAx(vs, Ax(t.stack));
      assert SafeValues(t.stack) <==> (Ax(t.stack).VPtr? ==> SafePointer(Ax(t.stack).p));
    }
  }

  // Whole runs

  /** Every instruction of the program is suited to the operands the specializer tracks. */
  ghost predicate WellTyped(code: seq<byte>, src: Source)
    requires IsLinked(code, src)
  {
    forall v, s :: Reached(code, src, v, s) && v.pc < |code| && Decode(code, v.pc).Some? ==>
      Suited(Decode(code, v.pc).value, s.stack)
  }

  /** No step from here on indexes a sequence at or beyond its length, or compares two literals
      that end with a lone backslash alike. */
  ghost predicate StaysInside(env: Env, code: seq<byte>, symtab: seq<byte>, st: RState)
    requires env.Valid()
    decreases |code| - st.pc
  {
    st.pc < |code| && Decode(code, st.pc).Some? ==>
      && !Beyond(Decode(code, st.pc).value, st.stack) && !Overreads(Decode(code, st.pc).value, st.stack)
      && match RefStep(env, code, symtab, st)
         case Halt(_) => true
         case Goto(pc, stack) => pc > st.pc ==> StaysInside(env, code, symtab, RState(pc, stack))
  }

  /** A linked, specializable and well-typed program on a typed event never meets an operand of
      another kind and never reads outside the event and the program, unless it indexes a sequence
      at or beyond its length or compares two literals that end with a lone backslash alike. */
  lemma {:induction false} NeverWild(code: seq<byte>, src: Source, env: Env, st: RState, v: VState, s: SState)
    requires IsLinked(code, src) && Specializable(code, src) && WellTyped(code, src) && Tracked(code, src, st, v, s)
    requires env.Valid() && env.fields == src.fields && env.ctx == src.ctx && env.gids == FinalGids(code, src)
    requires TypedEvent(env) && SafeValues(st.stack) && StaysInside(env, code, src.symtab, st)
    ensures RefRun(env, code, src.symtab, st) != Wild
    decreases |code| - st.pc
  {
    var v', s' := StepsAgree(code, src, env, st, v, s);
    InsnAt(code, src, v, s);
    InsnIsSafe(env, src.symtab, Decode(code, v.pc).value, st.pc, s.stack, st.stack);
    var t := RefStep(env, code, src.symtab, st);
    if t.Goto? {
      NeverWild(code, src, env, RState(t.pc, t.stack), v', s');
    }
  }

  /** The interpreter as it is: on a typed event, a linked program that meets the three static
      conditions, indexes no sequence beyond its length and compares no two literals that end with
      a lone backslash alike accepts, rejects or fails exactly as it does when it is read as
      written. */
  lemma SafeRunsAgree(code: seq<byte>, src: Source, env: Env, e: seq<Cell>)
    requires IsLinked(code, src) && Specializable(code, src) && Cacheable(code, src) && WellTyped(code, src)
    requires env.Valid() && env.fields == src.fields && env.ctx == src.ctx && env.gids == FinalGids(code, src)
    requires TypedEvent(env) && StaysInside(env, code, src.symtab, RState(0, [])) && |e| == STACK_LEN
    ensures var o := RegRun(env, FinalCode(code, src), 0, RegInit(e));
            o == RefRun(env, code, src.symtab, RState(0, [])) && o != Wild && o != Stuck
  {
    NeverWild(code, src, env, RState(0, []), INIT, Start(code));
    RegistersPreserveMeaning(code, src, env, e);
    RegRunEnds(code, src, env, GState(0, RegInit(e)), INIT);
  }

  // Literals that a caller can check

  /** No literal of the program ends with a lone backslash. */
  ghost predicate SoundLiterals(code: seq<byte>, src: Source)
    requires IsLinked(code, src)
  {
    forall v, s :: Reached(code, src, v, s) && v.pc < |code| && Decode(code, v.pc).Some? ==>
      SoundLiteral(Decode(code, v.pc).value)
  }

  ghost predicate SoundLiteral(i: Insn) { i.op.LoadString? ==> Marks(Cut(i.str)).None? }

  ghost predicate SoundTexts(vs: seq<Value>) {
    forall k :: 0 <= k < |vs| ==> vs[k].VStr? && vs[k].s.lit.PlainLiteral? ==> Marks(Cut(vs[k].s.data)).None?
  }

  lemma FoldedTexts(env: Env, symtab: seq<byte>, i: Insn, pc: nat, vs: seq<Value>)
    requires env.Valid() && SoundTexts(vs) && (IsBinary(i.op) || i.op.Cmp?)
    ensures var t := RefInsn(env, symtab, i, pc, vs); t.Goto? ==> SoundTexts(t.stack)
  {
    if |vs| >= 2 {
      var b, a := Bx(vs), Ax(vs);
      BinaryKnown(i.op, b, a, StringOrder(b, a), GlobOf(b, a));
      var t := RefInsn(env, symtab, i, pc, vs);
      if t.Goto? {
        assert t.stack == SetAx(Pop(vs), Ax(t.stack)) && Ax(t.stack).VInt?;
      }
    }
  }

  lemma PushedTexts(env: Env, symtab: seq<byte>, i: Insn, pc: nat, vs: seq<Value>)
    requires env.Valid() && SoundTexts(vs) && SoundLiteral(i) && IsPush(i.op)
    ensures var t := RefInsn(env, symtab, i, pc, vs); t.Goto? ==> SoundTexts(t.stack)
  {
    var t := RefInsn(env, symtab, i, pc, vs);
    if t.Goto? {
      assert t.stack == vs + [Ax(t.stack)];
    }
  }

  lemma OtherTexts(env: Env, symtab: seq<byte>, i: Insn, pc: nat, vs: seq<Value>)
    requires env.Valid() && SoundTexts(vs) && !IsPush(i.op) && !IsBinary(i.op) && !i.op.Cmp?
    ensures var t := RefInsn(env, symtab, i, pc, vs); t.Goto? ==> SoundTexts(t.stack)
  {
    var t := RefInsn(env, symtab, i, pc, vs);
    if t.Goto? && |vs| >= 1 && !i.op.Logical? && !i.op.CastNop? {
      assert t.stack == SetAx(vs, Ax(t.stack));
    }
  }

  lemma TextsStay(env: Env, symtab: seq<byte>, i: Insn, pc: nat, vs: seq<Value>)
    requires env.Valid() && SoundTexts(vs) && SoundLiteral(i)
    ensures var t := RefInsn(env, symtab, i, pc, vs); t.Goto? ==> SoundTexts(t.stack)
  {
    if IsPush(i.op) {
      PushedTexts(env, symtab, i, pc, vs);
    } else if IsBinary(i.op) || i.op.Cmp? {
      FoldedTexts(env, symtab, i, pc, vs);
    } else {
      OtherTexts(env, symtab, i, pc, vs);
    }
  }

  /** No step from here on indexes a sequence at or beyond its length. */
  ghost predicate IndexesInside(env: Env, code: seq<byte>, symtab: seq<byte>, st: RState)
    requires env.Valid()
    decreases |code| - st.pc
  {
    st.pc < |code| && Decode(code, st.pc).Some? ==>
      && !Beyond(Decode(code, st.pc).value, st.stack)
      && match RefStep(env, code, symtab, st)
         case Halt(_) => true
         case Goto(pc, stack) => pc > st.pc ==> IndexesInside(env, code, symtab, RState(pc, stack))
  }

  /** With such literals only the indexes are left to watch. */
  lemma {:induction false} SoundLiteralsStay(code: seq<byte>, src: Source, env: Env, st: RState, v: VState, s: SState)
    requires IsLinked(code, src) && Specializable(code, src) && SoundLiterals(code, src) && Tracked(code, src, st, v, s)
    requires env.Valid() && env.fields == src.fields && env.ctx == src.ctx && env.gids == FinalGids(code, src)
    requires SoundTexts(st.stack) && IndexesInside(env, code, src.symtab, st)
    ensures StaysInside(env, code, src.symtab, st)
    decreases |code| - st.pc
  {
    var v', s' := StepsAgree(code, src, env, st, v, s);
    InsnAt(code, src, v, s);
    TextsStay(env, src.symtab, Decode(code, v.pc).value, st.pc, st.stack);
    var t := RefStep(env, code, src.symtab, st);
    if t.Goto? {
      SoundLiteralsStay(code, src, env, RState(t.pc, t.stack), v', s');
    }
  }
}
