/** The bytecode validator: one forward pass of abstract interpretation over the
    code, with a table of the stacks recorded at jump targets. */
module Validator {
  import opened Words
  import opened Opcodes

  /** Register types. REG_DOUBLE cannot arise: every opcode that makes one is refused. */
  datatype RegType = S64 | U64 | Str | StarGlob | Unknown | Ptr

  const STACK_LEN: nat := 10

  predicate IsInt(t: RegType) { t == S64 || t == U64 }
  predicate IsIntOrUnknown(t: RegType) { IsInt(t) || t == Unknown }

  /** Depth, top and next-to-top of a stack whose top is its last element. */
  function Ax<T>(s: seq<T>): T requires |s| >= 1 { s[|s| - 1] }
  function Bx<T>(s: seq<T>): T requires |s| >= 2 { s[|s| - 2] }
  function Pop<T>(s: seq<T>): seq<T> requires |s| >= 1 { s[..|s| - 1] }
  function SetAx<T>(s: seq<T>, x: T): seq<T> requires |s| >= 1 { s[|s| - 1 := x] }

  /** The NUL-terminated symbol at an offset of the relocation table, if it ends inside it. */
  function SymbolAt(symtab: seq<byte>, off: nat): Option<seq<byte>> {
    if off >= |symtab| then None
    else
      var rest := symtab[off..];
      if StrLen(rest) == |rest| then None else Some(rest[..StrLen(rest)])
  }

  /** Table of recorded stacks: target offset to register types. */
  type MergeTable = map<nat, seq<RegType>>

  datatype VState = VState(pc: nat, stack: seq<RegType>, mp: MergeTable)
  datatype VResult = Rejected | Done | Next(st: VState)

  const INIT: VState := VState(0, [], map[])

  /** bin_op_compare_check: typing known to match or left to run time. */
  predicate CompareOk(ax: RegType, bx: RegType, c: CmpOp) {
    match ax
    case Str => bx == Unknown || bx == Str || (bx == StarGlob && (c == EQ || c == NE))
    case StarGlob => bx == Unknown || (bx == Str && (c == EQ || c == NE))
    case S64 => IsIntOrUnknown(bx)
    case U64 => IsIntOrUnknown(bx)
    case Unknown => bx != Ptr
    case Ptr => false
  }

  /** validate_instruction_context: the stack suits the instruction. */
  predicate ContextOk(i: Insn, pc: nat, stack: seq<RegType>) {
    match i.op
    case Cmp(c) => |stack| >= 2 && CompareOk(Ax(stack), Bx(stack), c)
    case CmpString(_) => |stack| >= 2 && Ax(stack) == Str && Bx(stack) == Str
    case CmpGlob(_) => |stack| >= 2 && (Ax(stack) == StarGlob || Bx(stack) == StarGlob)
    case CmpS64(_) => |stack| >= 2 && IsInt(Ax(stack)) && IsInt(Bx(stack))
    case Bit(_) => |stack| >= 2 && IsIntOrUnknown(Ax(stack)) && IsIntOrUnknown(Bx(stack))
    case Unary(_) => |stack| >= 1 && IsIntOrUnknown(Ax(stack))
    case BitNot => |stack| >= 1 && IsIntOrUnknown(Ax(stack))
    case UnaryS64(_) => |stack| >= 1 && IsInt(Ax(stack))
    case Logical(_) => |stack| >= 1 && IsInt(Ax(stack)) && i.arg > pc
    case CastToS64 => |stack| >= 1 && Ax(stack) == S64
    case LoadTyped(_) => false
    case CmpDoubleS64(_) => false
    case Unsupported => false
    case _ => true
  }

  function Push(stack: seq<RegType>, t: RegType): Option<seq<RegType>> {
    if |stack| >= STACK_LEN then None else Some(stack + [t])
  }

  function RefType(r: RefOp): RegType {
    if r.FieldS64? || r.ContextS64? then S64 else Str
  }

  /** exec_insn on the abstract stack, for every instruction that falls through. */
  function Exec(op: Op, stack: seq<RegType>): Option<seq<RegType>> {
    match op
    case Cmp(_) => ExecCompare(stack, S64)
    case CmpString(_) => ExecCompare(stack, S64)
    case CmpS64(_) => ExecCompare(stack, S64)
    case CmpGlob(_) => ExecCompare(stack, S64)
    case Bit(_) => ExecCompare(stack, U64)
    case Unary(u) =>
      if |stack| >= 1 && IsIntOrUnknown(Ax(stack))
      then Some(if u == Not then stack else SetAx(stack, Unknown)) else None
    case UnaryS64(_) => if |stack| >= 1 && IsInt(Ax(stack)) then Some(stack) else None
    case BitNot => if |stack| >= 1 && IsIntOrUnknown(Ax(stack)) then Some(SetAx(stack, U64)) else None
    case Logical(_) => if |stack| >= 1 && IsInt(Ax(stack)) then Some(Pop(stack)) else None
    case LoadRef(r) => Push(stack, RefType(r))
    case LoadString => Push(stack, Str)
    case LoadStarGlob => Push(stack, StarGlob)
    case LoadS64 => Push(stack, S64)
    case CastToS64 => if |stack| >= 1 && IsIntOrUnknown(Ax(stack)) then Some(SetAx(stack, S64)) else None
    case CastNop => Some(stack)
    case GetContextRoot => Push(stack, Ptr)
    case GetAppContextRoot => Push(stack, Ptr)
    case GetPayloadRoot => Push(stack, Ptr)
    case LoadField => if |stack| >= 1 && Ax(stack) == Ptr then Some(SetAx(stack, Unknown)) else None
    case GetSymbol => if |stack| >= 1 && Ax(stack) == Ptr then Some(stack) else None
    case GetIndexU16 => if |stack| >= 1 && Ax(stack) == Ptr then Some(stack) else None
    case GetIndexU64 => if |stack| >= 1 && Ax(stack) == Ptr then Some(stack) else None
    case _ => None
  }

  /** Pop two, push one; the remaining operand may be of any type but a pointer. */
  function ExecCompare(stack: seq<RegType>, t: RegType): Option<seq<RegType>> {
    if |stack| >= 2 && Bx(stack) != Ptr then Some(SetAx(Pop(stack), t)) else None
  }

  predicate ReturnOk(op: Op, stack: seq<RegType>)
    requires op.Return? || op.ReturnS64?
  {
    |stack| >= 1 && (if op.Return? then Ax(stack) != StarGlob else IsInt(Ax(stack)))
  }

  /** bytecode_validate_overflow */
  predicate InRange(i: Option<Insn>, symtab: seq<byte>) {
    i.Some? && (i.value.op.GetSymbol? ==> SymbolAt(symtab, i.value.arg).Some?)
  }

  /** One instruction in range: context, merge points, abstract execution. */
  function VInsn(i: Insn, st: VState): (r: VResult)
    ensures r.Next? ==> r.st.pc == st.pc + Size(i)
  {
    if !ContextOk(i, st.pc, st.stack) then Rejected
    else if st.pc in st.mp && st.mp[st.pc] != st.stack then Rejected
    else
      var mp := st.mp - {st.pc};
      if i.op.Return? || i.op.ReturnS64? then
        if ReturnOk(i.op, st.stack) && mp == map[] then Done else Rejected
      else if i.op.Logical? && i.arg in mp && mp[i.arg] != st.stack then Rejected
      else
        var mp' := if i.op.Logical? && i.arg !in mp then mp[i.arg := st.stack] else mp;
        match Exec(i.op, st.stack)
        case None => Rejected
        case Some(stack') => Next(VState(st.pc + Size(i), stack', mp'))
  }

  /** One turn of the loop of lttng_bytecode_validate. */
  function VStep(code: seq<byte>, symtab: seq<byte>, st: VState): (r: VResult)
    requires st.pc < |code|
    ensures r.Next? ==> st.pc < r.st.pc <= |code|
  {
    var d := Decode(code, st.pc);
    DecodeFits(code, st.pc);
    if !InRange(d, symtab) then Rejected else VInsn(d.value, st)
  }

  predicate Accepts(code: seq<byte>, symtab: seq<byte>, st: VState)
    decreases |code| - st.pc
  {
    st.pc < |code| &&
    match VStep(code, symtab, st)
    case Rejected => false
    case Done => true
    case Next(st') => Accepts(code, symtab, st')
  }

  /** The body of the loop: range check, context check, merge points, abstract execution. */
  method ValidateInsn(code: seq<byte>, symtab: seq<byte>, pc: nat, stack: seq<RegType>, table: MergeTable)
      returns (r: VResult)
    requires pc < |code|
    ensures r == VStep(code, symtab, VState(pc, stack, table))
  {
    var d := Decode(code, pc);
    if !InRange(d, symtab) || !ContextOk(d.value, pc, stack) {
      return Rejected;
    }
    var i := d.value;
    var mp := table;
    if pc in mp {
      if mp[pc] != stack {
        return Rejected;
      }
    }
    mp := mp - {pc};
    if i.op.Return? || i.op.ReturnS64? {
      return if ReturnOk(i.op, stack) && mp == map[] then Done else Rejected;
    }
    if i.op.Logical? {
      if i.arg in mp {
        if mp[i.arg] != stack {
          return Rejected;
        }
      } else {
        mp := mp[i.arg := stack];
      }
    }
    var e := Exec(i.op, stack);
    if e.None? {
      return Rejected;
    }
    return Next(VState(pc + Size(i), e.value, mp));
  }

  /** lttng_bytecode_validate: true exactly for a zero return value. A pass that runs off
      the end of the code without a return instruction does not return zero. */
  method Validate(code: seq<byte>, symtab: seq<byte>) returns (ok: bool)
    ensures ok == Accepts(code, symtab, INIT)
  {
    var pc: nat, stack: seq<RegType>, mp: MergeTable := 0, [], map[];
    while pc < |code|
      invariant Accepts(code, symtab, VState(pc, stack, mp)) == Accepts(code, symtab, INIT)
      decreases |code| - pc
    {
      var r := ValidateInsn(code, symtab, pc, stack, mp);
      if !r.Next? {
        return r.Done?;
      }
      pc, stack, mp := r.st.pc, r.st.stack, r.st.mp;
    }
    return false;
  }

  /** st' is st or a state the pass visits after st. */
  ghost predicate Visits(code: seq<byte>, symtab: seq<byte>, st: VState, st': VState)
    decreases |code| - st.pc
  {
    st == st' ||
    (st.pc < |code| && var r := VStep(code, symtab, st); r.Next? && Visits(code, symtab, r.st, st'))
  }

  /** Number of instructions the pass visits from st on. */
  ghost function VisitCount(code: seq<byte>, symtab: seq<byte>, st: VState): (n: nat)
    requires Accepts(code, symtab, st)
    ensures n >= 1
    decreases |code| - st.pc
  {
    var r := VStep(code, symtab, st);
    if r.Next? then 1 + VisitCount(code, symtab, r.st) else 1
  }

  lemma {:induction false} VisitsProperties(code: seq<byte>, symtab: seq<byte>, st: VState, st': VState)
    requires Accepts(code, symtab, st) && Visits(code, symtab, st, st')
    ensures Accepts(code, symtab, st')
    ensures st' == st || (st.pc < st'.pc && VisitCount(code, symtab, st') < VisitCount(code, symtab, st))
    decreases |code| - st.pc
  {
    if st != st' {
      VisitsProperties(code, symtab, VStep(code, symtab, st).st, st');
    }
  }

  lemma {:induction false} VisitsTransitive(code: seq<byte>, symtab: seq<byte>, a: VState, b: VState, c: VState)
    requires Visits(code, symtab, a, b) && Visits(code, symtab, b, c)
    ensures Visits(code, symtab, a, c)
    decreases |code| - a.pc
  {
    if a != b {
      VisitsTransitive(code, symtab, VStep(code, symtab, a).st, b, c);
    }
  }

  /** One offset is visited in at most one state. */
  lemma {:induction false} VisitedOnce(code: seq<byte>, symtab: seq<byte>, st: VState, a: VState, b: VState)
    requires Accepts(code, symtab, st)
    requires Visits(code, symtab, st, a) && Visits(code, symtab, st, b) && a.pc == b.pc
    ensures a == b
    decreases |code| - st.pc
  {
    VisitsProperties(code, symtab, st, a);
    VisitsProperties(code, symtab, st, b);
    if a != st && b != st {
      VisitedOnce(code, symtab, VStep(code, symtab, st).st, a, b);
    }
  }

  /** Acceptance discharges every recorded merge point: its target is visited later,
      with exactly the recorded stack. */
  lemma {:induction false} MergePointVisited(code: seq<byte>, symtab: seq<byte>, st: VState, target: nat)
      returns (at: VState)
    requires Accepts(code, symtab, st) && target in st.mp
    ensures Visits(code, symtab, st, at) && Accepts(code, symtab, at)
    ensures at.pc == target && at.stack == st.mp[target]
    decreases |code| - st.pc
  {
    if target == st.pc {
      at := st;
    } else {
      var r := VStep(code, symtab, st);
      assert target in st.mp - {st.pc};
      assert target in r.st.mp && r.st.mp[target] == st.mp[target];
      at := MergePointVisited(code, symtab, r.st, target);
    }
  }

  /** The skip target of a visited AND/OR instruction is a later visited instruction whose
      fall-through stack has the depth and the types of the stack at the jump. */
  lemma SkipTargetVisited(code: seq<byte>, symtab: seq<byte>, st: VState) returns (at: VState)
    requires Accepts(code, symtab, st)
    requires Decode(code, st.pc).Some? && Decode(code, st.pc).value.op.Logical?
    ensures Visits(code, symtab, st, at) && Accepts(code, symtab, at)
    ensures at.pc == Decode(code, st.pc).value.arg && st.pc < at.pc
    ensures at.stack == st.stack
    ensures VisitCount(code, symtab, at) < VisitCount(code, symtab, st)
  {
    var i := Decode(code, st.pc).value;
    var next := VStep(code, symtab, st).st;
    assert i.arg in next.mp && next.mp[i.arg] == st.stack;
    at := MergePointVisited(code, symtab, next, i.arg);
    VisitsProperties(code, symtab, next, at);
  }
}
