/** Validator soundness: what every run of a linked program keeps, for any event. */
module Soundness {
  import opened Words
  import opened Opcodes
  import opened Validator
  import opened Fields
  import opened Specializer
  import opened Interpreter
  import opened Linked
  import opened StringCompare

  /** A run-time value of the register type the validator computed. Signedness is not told
      apart: the interpreter keeps one 64-bit integer kind. */
  predicate KindOk(t: RegType, v: Value) {
    match t
    case S64 => v.VInt?
    case U64 => v.VInt?
    case Str => v.VStr? && !v.s.lit.GlobLiteral?
    case StarGlob => v.VStr? && v.s.lit.GlobLiteral?
    case Ptr => v.VPtr?
    case Unknown => !v.VPtr?
  }

  ghost predicate Kinds(ts: seq<RegType>, vs: seq<Value>) {
    |ts| == |vs| && forall k :: 0 <= k < |ts| ==> KindOk(ts[k], vs[k])
  }

  /** The values a load can produce are of a kind LOAD_FIELD's unknown type covers. */
  lemma LoadMemKind(ot: ObjType, mem: Mem)
    ensures LoadMem(ot, mem).Bad? ==> LoadMem(ot, mem).o != Stuck
    ensures LoadMem(ot, mem).Ok? ==> KindOk(Unknown, LoadMem(ot, mem).value)
  {}

  lemma GetIndexKind(env: Env, g: Gid, p: Pointer)
    requires env.Valid()
    ensures var r := DynamicGetIndex(env, g, p); if r.Ok? then KindOk(Ptr, r.value) else r.o != Stuck
  {}

  lemma ReferenceKind(env: Env, r: RefOp, arg: nat)
    requires env.Valid()
    ensures var v := LoadReference(env, r, arg); if v.Ok? then KindOk(RefType(r), v.value) else v.o != Stuck
  {}

  /** What specialization may turn an instruction into. */
  predicate Rewrites(i: Insn, i': Insn) {
    i'.str == i.str && Size(i') == Size(i) &&
    match i.op
    case Cmp(_) => i'.op.CmpString? || i'.op.CmpGlob? || i'.op.CmpS64? || i'.op.CmpDoubleS64?
    case Unary(u) => i'.op == UnaryS64(u)
    case CastToS64 => i'.op.CastNop?
    case LoadField => i'.op.LoadField? || i'.op.LoadTyped?
    case GetSymbol => i'.op.GetIndexU16?
    case GetIndexU16 => i'.op.GetIndexU16?
    case GetIndexU64 => i'.op.GetIndexU64?
    case _ => i'.op == i.op && i'.arg == i.arg
  }

  lemma SpecRewrites(src: Source, i: Insn, ss: seq<Entry>, arena: Arena)
    requires SpecInsn(src, i, ss, arena).Some?
    requires OperandSize(i.op) == 0 ==> i.arg == 0
    requires var o := SpecInsn(src, i, ss, arena).value; Size(Insn(o.op, o.arg, i.str)) == Size(i)
    ensures var o := SpecInsn(src, i, ss, arena).value; Rewrites(i, Insn(o.op, o.arg, i.str))
  {}

  /** How a turn agrees with the validator's effect on the register types. */
  ghost predicate TurnOk(i: Insn, pc: nat, ts: seq<RegType>, t: Turn)
    requires Exec(i.op, ts).Some?
  {
    match t
    case Halt(out) => out != Stuck
    case Goto(pc', vs') =>
      || (pc' == pc + Size(i) && Kinds(Exec(i.op, ts).value, vs'))
      || (i.op.Logical? && pc' == i.arg && Kinds(ts, vs'))
  }

  /** The specialized instruction on operands of the validator's kinds: it is never stuck, and
      it continues with operands of the validator's next kinds, or jumps with those it had. */
  lemma KindStep(env: Env, i: Insn, i': Insn, pc: nat, ts: seq<RegType>, vs: seq<Value>)
    requires env.Valid() && ContextOk(i, pc, ts) && Exec(i.op, ts).Some? && Kinds(ts, vs) && Rewrites(i, i')
    ensures TurnOk(i, pc, ts, StepInsn(env, i', pc, vs))
  {
    match i.op
    case Cmp(_) => BinaryStep(env, i, i', pc, ts, vs);
    case CmpString(_) => BinaryStep(env, i, i', pc, ts, vs);
    case CmpS64(_) => BinaryStep(env, i, i', pc, ts, vs);
    case CmpGlob(_) => BinaryStep(env, i, i', pc, ts, vs);
    case Bit(_) => BinaryStep(env, i, i', pc, ts, vs);
    case LoadRef(_) => PushStep(env, i, i', pc, ts, vs);
    case LoadString => PushStep(env, i, i', pc, ts, vs);
    case LoadStarGlob => PushStep(env, i, i', pc, ts, vs);
    case LoadS64 => PushStep(env, i, i', pc, ts, vs);
    case GetContextRoot => PushStep(env, i, i', pc, ts, vs);
    case GetPayloadRoot => PushStep(env, i, i', pc, ts, vs);
    case Logical(_) =>
    case CastToS64 =>
    case CastNop =>
    case GetAppContextRoot =>
    case _ => TopStep(env, i, i', pc, ts, vs);
  }

  lemma BinaryStep(env: Env, i: Insn, i': Insn, pc: nat, ts: seq<RegType>, vs: seq<Value>)
    requires env.Valid() && ContextOk(i, pc, ts) && Exec(i.op, ts).Some? && Kinds(ts, vs) && Rewrites(i, i')
    requires i.op.Cmp? || i.op.CmpString? || i.op.CmpS64? || i.op.CmpGlob? || i.op.Bit?
    ensures TurnOk(i, pc, ts, StepInsn(env, i', pc, vs))
  {
    if !i'.op.CmpDoubleS64? {
      var b, a := Bx(vs), Ax(vs);
      BinaryKind(i'.op, b, a, StringOrder(b, a), GlobOf(b, a));
      FoldOk(i, pc, ts, vs, BinaryResult(i'.op, b, a, StringOrder(b, a), GlobOf(b, a)));
    }
  }

  lemma BinaryKind(op: Op, b: Value, a: Value, order: Option<int>, glob: bool)
    ensures var r := BinaryResult(op, b, a, order, glob); if r.Ok? then r.value.VInt? else r.o != Stuck
  {}

  lemma FoldOk(i: Insn, pc: nat, ts: seq<RegType>, vs: seq<Value>, r: Res<Value>)
    requires Exec(i.op, ts).Some? && Kinds(ts, vs)
    requires i.op.Cmp? || i.op.CmpString? || i.op.CmpS64? || i.op.CmpGlob? || i.op.Bit?
    requires if r.Ok? then r.value.VInt? else r.o != Stuck
    ensures TurnOk(i, pc, ts, Folded(vs, r, pc + Size(i)))
  {}

  lemma PushStep(env: Env, i: Insn, i': Insn, pc: nat, ts: seq<RegType>, vs: seq<Value>)
    requires env.Valid() && Exec(i.op, ts).Some? && Kinds(ts, vs) && i' == i
    requires IsPush(i.op)
    ensures TurnOk(i, pc, ts, StepInsn(env, i', pc, vs))
  {
    if i.op.LoadRef? {
      ReferenceKind(env, i.op.r, i.arg);
    }
  }

  lemma TopStep(env: Env, i: Insn, i': Insn, pc: nat, ts: seq<RegType>, vs: seq<Value>)
    requires env.Valid() && ContextOk(i, pc, ts) && Exec(i.op, ts).Some? && Kinds(ts, vs) && Rewrites(i, i')
    requires || i.op.BitNot? || i.op.Unary? || i.op.UnaryS64? || i.op.LoadField?
             || i.op.GetSymbol? || i.op.GetIndexU16? || i.op.GetIndexU64?
    ensures TurnOk(i, pc, ts, StepInsn(env, i', pc, vs))
  {
    if i.op.LoadField? {
      LoadFieldStep(env, i', vs);
    } else if !i.op.BitNot? && !i.op.Unary? && !i.op.UnaryS64? {
      IndexStep(env, i', vs);
    }
    var r := TopResult(env, i', Ax(vs));
    assert StepInsn(env, i', pc, vs) == Replaced(vs, r, pc + Size(i'));
    assert r.Ok? ==> KindOk(Ax(Exec(i.op, ts).value), r.value);
  }

  lemma LoadFieldStep(env: Env, i: Insn, vs: seq<Value>)
    requires env.Valid() && |vs| >= 1 && (i.op.LoadField? || i.op.LoadTyped?)
    ensures var r := TopResult(env, i, Ax(vs)); if r.Ok? then KindOk(Unknown, r.value) else r.o != Stuck
  {
    if Ax(vs).VPtr? && Ax(vs).p.Obj? {
      LoadMemKind(if i.op.LoadTyped? then i.op.t else Ax(vs).p.ot, Ax(vs).p.mem);
    }
  }

  lemma IndexStep(env: Env, i: Insn, vs: seq<Value>)
    requires env.Valid() && |vs| >= 1 && (i.op.GetIndexU16? || i.op.GetIndexU64?)
    ensures var r := TopResult(env, i, Ax(vs)); if r.Ok? then KindOk(Ptr, r.value) else r.o != Stuck
  {
    if Ax(vs).VPtr? && i.arg in env.gids {
      GetIndexKind(env, env.gids[i.arg], Ax(vs).p);
    }
  }

  /** A run state as the validator saw it: a visited instruction, of the same stack depth, with
      operands of the kinds it computed. */
  ghost predicate AsValidated(code: seq<byte>, src: Source, st: RState, v: VState) {
    && Visits(code, src.symtab, INIT, v) && Accepts(code, src.symtab, v)
    && v.pc == st.pc && Kinds(v.stack, st.stack)
  }

  /** The event is described to the program it was linked for. */
  ghost predicate RunsOn(env: Env, code: seq<byte>, src: Source)
    requires IsLinked(code, src)
  {
    env.Valid() && env.fields == src.fields && env.ctx == src.ctx && env.gids == FinalGids(code, src)
  }

  /** One step of a run keeps its agreement with the validator, never gets stuck, moves the
      program counter forward, and uses up visited instructions. */
  lemma StepSound(code: seq<byte>, src: Source, env: Env, st: RState, v: VState) returns (v': VState)
    requires IsLinked(code, src) && RunsOn(env, code, src) && AsValidated(code, src, st, v)
    ensures var r := Step(env, FinalCode(code, src), st);
            && r != Halt(Stuck)
            && (r.Goto? ==> st.pc < r.pc && AsValidated(code, src, RState(r.pc, r.stack), v')
                            && VisitCount(code, src.symtab, v') < VisitCount(code, src.symtab, v))
  {
    var i' := FinalInsn(code, src, v);
    v' := v;
    var i := Decode(code, v.pc).value;
    if !IsReturn(i.op) {
      KindStep(env, i, i', v.pc, v.stack, st.stack);
      var r := StepInsn(env, i', st.pc, st.stack);
      if r.Goto? {
        v' := NextValidated(code, src, v, r.pc, r.stack);
      }
    }
  }

  /** The instruction of the rewritten code at a visited offset. */
  lemma FinalInsn(code: seq<byte>, src: Source, v: VState) returns (i': Insn)
    requires IsLinked(code, src) && Visits(code, src.symtab, INIT, v) && Accepts(code, src.symtab, v)
    ensures v.pc < |FinalCode(code, src)| && Decode(FinalCode(code, src), v.pc) == Some(i')
    ensures Decode(code, v.pc).Some?
    ensures var i := Decode(code, v.pc).value; if IsReturn(i.op) then i' == i else Rewrites(i, i')
  {
    LinkedInStep(code, src);
    var s := PassesMeet(code, src, INIT, Start(code), v);
    InStepInsn(code, src, v, s);
    var i := Decode(code, v.pc).value;
    i' := i;
    if !IsReturn(i.op) {
      SStepSize(code, src, v, s);
      EmptyOperand(code, v.pc);
      SpecRewrites(src, i, s.stack, s.arena);
      var o := SpecInsn(src, i, s.stack, s.arena).value;
      i' := Insn(o.op, o.arg, i.str);
    }
  }

  lemma SStepSize(code: seq<byte>, src: Source, v: VState, s: SState)
    requires InStep(code, src, v, s) && Decode(code, v.pc).Some? && !IsReturn(Decode(code, v.pc).value.op)
    ensures var i := Decode(code, v.pc).value;
            && SpecInsn(src, i, s.stack, s.arena).Some?
            && var o := SpecInsn(src, i, s.stack, s.arena).value;
            Size(Insn(o.op, o.arg, i.str)) == Size(i)
  {
    DecodeSuffix(code, s.code, v.pc);
    InStepNext(code, src, v, s);
    SStepWrites(src, s);
  }

  /** The validator state behind the successor of a dispatched instruction. */
  lemma NextVisited(code: seq<byte>, src: Source, v: VState, pc: nat, falls: bool) returns (v': VState)
    requires Visits(code, src.symtab, INIT, v) && Accepts(code, src.symtab, v)
    requires Accepts(code, src.symtab, INIT)
    requires !IsReturn(Decode(code, v.pc).value.op)
    requires var i := Decode(code, v.pc).value;
             if falls then pc == v.pc + Size(i) && Exec(i.op, v.stack).Some? else i.op.Logical? && pc == i.arg
    ensures v.pc < pc && v'.pc == pc && Visits(code, src.symtab, INIT, v') && Accepts(code, src.symtab, v')
    ensures v'.stack == if falls then Exec(Decode(code, v.pc).value.op, v.stack).value else v.stack
    ensures VisitCount(code, src.symtab, v') < VisitCount(code, src.symtab, v)
  {
    if falls {
      v' := VStep(code, src.symtab, v).st;
    } else {
      v' := SkipTargetVisited(code, src.symtab, v);
    }
    VisitsTransitive(code, src.symtab, INIT, v, v');
  }

  lemma NextValidated(code: seq<byte>, src: Source, v: VState, pc: nat, vs: seq<Value>) returns (v': VState)
    requires Visits(code, src.symtab, INIT, v) && Accepts(code, src.symtab, v)
    requires Accepts(code, src.symtab, INIT)
    requires !IsReturn(Decode(code, v.pc).value.op)
    requires var i := Decode(code, v.pc).value;
             || (pc == v.pc + Size(i) && Exec(i.op, v.stack).Some? && Kinds(Exec(i.op, v.stack).value, vs))
             || (i.op.Logical? && pc == i.arg && Kinds(v.stack, vs))
    ensures v.pc < pc && AsValidated(code, src, RState(pc, vs), v')
    ensures VisitCount(code, src.symtab, v') < VisitCount(code, src.symtab, v)
  {
    var i := Decode(code, v.pc).value;
    v' := NextVisited(code, src, v, pc, pc == v.pc + Size(i) && Kinds(Exec(i.op, v.stack).value, vs));
  }

  /** A finite run of the rewritten code from the empty stack. */
  ghost predicate IsRun(env: Env, code: seq<byte>, tr: seq<RState>)
    requires env.Valid()
  {
    && |tr| >= 1 && tr[0] == RState(0, [])
    && forall k :: 0 <= k < |tr| - 1 ==> Step(env, code, tr[k]) == Goto(tr[k + 1].pc, tr[k + 1].stack)
  }

  /** Soundness, state by state: after k steps the run is at an instruction the validator
      visited, with the validator's depth and kinds, and k + 1 instructions have been counted. */
  lemma {:induction false} RunState(code: seq<byte>, src: Source, env: Env, tr: seq<RState>, k: nat) returns (v: VState)
    requires IsLinked(code, src) && RunsOn(env, code, src) && IsRun(env, FinalCode(code, src), tr) && k < |tr|
    ensures AsValidated(code, src, tr[k], v)
    ensures k + VisitCount(code, src.symtab, v) <= VisitCount(code, src.symtab, INIT)
    ensures k > 0 ==> tr[k - 1].pc < tr[k].pc
  {
    if k == 0 {
      v := INIT;
    } else {
      var u := RunState(code, src, env, tr, k - 1);
      v := StepSound(code, src, env, tr[k - 1], u);
      assert RState(tr[k].pc, tr[k].stack) == tr[k];
    }
  }

  ghost predicate Seen(code: seq<byte>, src: Source, st: RState) {
    exists v :: AsValidated(code, src, st, v)
  }

  /** Validator soundness over whole runs: every dispatched instruction is one the validator
      visited, at its depth and kinds; no run is stuck; the program counter only grows; and no
      run takes more steps than there are instructions up to the first return. */
  lemma ValidatorSoundness(code: seq<byte>, src: Source, env: Env, tr: seq<RState>)
    requires IsLinked(code, src) && RunsOn(env, code, src) && IsRun(env, FinalCode(code, src), tr)
    ensures forall k :: 0 <= k < |tr| ==> Seen(code, src, tr[k])
    ensures forall k :: 0 <= k < |tr| ==> Step(env, FinalCode(code, src), tr[k]) != Halt(Stuck)
    ensures forall k :: 0 < k < |tr| ==> tr[k - 1].pc < tr[k].pc
    ensures |tr| <= VisitCount(code, src.symtab, INIT)
  {
    forall k | 0 <= k < |tr|
      ensures Seen(code, src, tr[k])
      ensures Step(env, FinalCode(code, src), tr[k]) != Halt(Stuck)
      ensures k > 0 ==> tr[k - 1].pc < tr[k].pc
    {
      StateSound(code, src, env, tr, k);
    }
    StateSound(code, src, env, tr, |tr| - 1);
  }

  lemma StateSound(code: seq<byte>, src: Source, env: Env, tr: seq<RState>, k: nat)
    requires IsLinked(code, src) && RunsOn(env, code, src) && IsRun(env, FinalCode(code, src), tr) && k < |tr|
    ensures Seen(code, src, tr[k]) && Step(env, FinalCode(code, src), tr[k]) != Halt(Stuck)
    ensures k > 0 ==> tr[k - 1].pc < tr[k].pc
    ensures k < VisitCount(code, src.symtab, INIT)
  {
    var v := RunState(code, src, env, tr, k);
    var _ := StepSound(code, src, env, tr[k], v);
  }

  /** Every run ends, and not in a stuck state. */
  lemma {:induction false} RunEnds(code: seq<byte>, src: Source, env: Env, st: RState, v: VState)
    requires IsLinked(code, src) && RunsOn(env, code, src) && AsValidated(code, src, st, v)
    ensures Run(env, FinalCode(code, src), st) != Stuck
    decreases |code| - st.pc
  {
    var v' := StepSound(code, src, env, st, v);
    var r := Step(env, FinalCode(code, src), st);
    if r.Goto? {
      RunEnds(code, src, env, RState(r.pc, r.stack), v');
    }
  }

  /** A run trips the capacity check of the execution stack exactly at a push instruction that
      the validator visited with eight or more entries on its own stack, which holds ten. */
  lemma OverflowExactly(code: seq<byte>, src: Source, env: Env, st: RState, v: VState)
    requires IsLinked(code, src) && RunsOn(env, code, src) && AsValidated(code, src, st, v)
    ensures Step(env, FinalCode(code, src), st) == Halt(Overflow)
            <==> Decode(code, v.pc).Some? && IsPush(Decode(code, v.pc).value.op) && |v.stack| >= CAPACITY
  {
    var i' := FinalInsn(code, src, v);
    OverflowIsPush(env, i', st.pc, st.stack);
  }

  lemma OverflowIsPush(env: Env, i: Insn, pc: nat, vs: seq<Value>)
    requires env.Valid()
    ensures StepInsn(env, i, pc, vs) == Halt(Overflow) <==> IsPush(i.op) && |vs| >= CAPACITY
  {
    if i.op.LoadRef? {
      ReferenceOutcomes(env, i.op.r, i.arg);
    }
  }

  lemma ReferenceOutcomes(env: Env, r: RefOp, arg: nat)
    requires env.Valid()
    ensures LoadReference(env, r, arg).Bad? ==> LoadReference(env, r, arg).o != Overflow
  {}
}
