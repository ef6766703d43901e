/** The dispatch interpreter of specialized filter bytecode. The stack is a sequence of values;
    memory is what the pointers on the stack can reach. */
module Interpreter {
  import opened Words
  import opened Opcodes
  import opened Validator
  import opened Fields
  import opened Specializer
  import opened StringCompare
  import Glob

  /** What a pointer addresses: a payload slot, characters, array data, or a context's integer. */
  datatype Mem = SlotMem(slot: Slot) | CharMem(s: Option<seq<byte>>)
               | ElemMem(data: Option<seq<byte>>, off: nat) | IntMem(v: word)

  datatype Pointer = PayloadRoot | ContextRoot | Obj(ot: ObjType, mem: Mem, fty: Option<FieldType>)

  datatype Value = VInt(v: word) | VStr(s: StrReg) | VPtr(p: Pointer)

  /** How a run ends. Error is the interpreter's own error path; Assertion and Overflow are its
      BUG_ON checks; Wild is an operand of another kind, or memory outside the event; Stuck is
      control outside decodable code, or a missing operand. */
  datatype Outcome = Accept | Reject | Error | Assertion | Overflow | Wild | Stuck

  datatype Res<+T> = Ok(value: T) | Bad(o: Outcome)

  /** A context's value: its integer and its string reading. */
  datatype CtxVal = CtxVal(i: word, s: Option<seq<byte>>)

  /** The event being filtered, and the lookup data of the program. */
  datatype Env =
    Env(fields: seq<Field>, slots: seq<Slot>, ctx: seq<CtxField>, ctxVals: seq<CtxVal>, gids: map<nat, Gid>)
  {
    predicate Valid() { |slots| == |fields| && |ctxVals| == |ctx| }
  }

  /** Entries the execution stack can hold: INTERPRETER_STACK_LEN less its two dummies. */
  const CAPACITY: nat := 8

  /** A little-endian element of fewer or equal than eight bytes, sign-extended if signed. */
  function Extend(signed: bool, s: seq<byte>): word {
    var n := LittleEndian(s);
    Word(if signed && 2 * n >= Pow256(|s|) then n - Pow256(|s|) else n)
  }

  function ElemWidth(ot: ObjType): nat {
    match ot
    case S8 => 1 case U8 => 1 case S16 => 2 case U16 => 2 case S32 => 4 case U32 => 4 case _ => 8
  }

  predicate IsSignedElem(ot: ObjType) { ot.S8? || ot.S16? || ot.S32? || ot.S64Obj? }

  /** Read memory as an object of the given type: the loads of dynamic_load_field and, with the
      type taken from the opcode, of the typed load instructions. */
  function LoadMem(ot: ObjType, mem: Mem): Res<Value> {
    match ot
    case SequenceObj => Bad(Error)
    case ArrayObj => Bad(Error)
    case StringObj =>
      (match mem
       case CharMem(None) => Bad(Error)
       case CharMem(Some(s)) => Ok(VStr(StrReg(s, NotLiteral)))
       case _ => Bad(Wild))
    case StringSequence =>
      (match mem
       case SlotMem(slot) => LoadSequence(slot)
       case _ => Bad(Wild))
    case _ =>
      (match mem
       case SlotMem(IntSlot(v)) => if ElemWidth(ot) == 8 then Ok(VInt(v)) else Bad(Wild)
       case IntMem(v) => if ElemWidth(ot) == 8 then Ok(VInt(v)) else Bad(Wild)
       case ElemMem(Some(d), off) =>
         if off + ElemWidth(ot) > |d| then Bad(Wild)
         else Ok(VInt(Extend(IsSignedElem(ot), d[off..off + ElemWidth(ot)])))
       case _ => Bad(Wild))
  }

  function LoadSequence(slot: Slot): Res<Value> {
    match slot
    case SeqSlot(_, None) => Bad(Error)
    case SeqSlot(len, Some(d)) => if len <= |d| then Ok(VStr(StrReg(d[..len], NotLiteral))) else Bad(Wild)
    case _ => Bad(Wild)
  }

  function LoadChars(slot: Slot): Res<Value> {
    match slot
    case StrSlot(None) => Bad(Error)
    case StrSlot(Some(s)) => Ok(VStr(StrReg(s, NotLiteral)))
    case _ => Bad(Wild)
  }

  /** The legacy load instructions, which carry a payload offset or a context index. */
  function LoadReference(env: Env, r: RefOp, arg: nat): Res<Value>
    requires env.Valid()
  {
    match r
    case ContextString =>
      if arg >= |env.ctx| then Bad(Wild)
      else if env.ctxVals[arg].s.None? then Bad(Error)
      else Ok(VStr(StrReg(env.ctxVals[arg].s.value, NotLiteral)))
    case ContextS64 => if arg >= |env.ctx| then Bad(Wild) else Ok(VInt(env.ctxVals[arg].i))
    case _ =>
      match SlotAt(env.fields, env.slots, arg)
      case None => Bad(Wild)
      case Some(slot) =>
        if r.FieldS64? then (if slot.IntSlot? then Ok(VInt(slot.v)) else Bad(Wild))
        else if r.FieldSequence? || r.UserSequence? then LoadSequence(slot)
        else LoadChars(slot)
  }

  /** The pointer to a payload slot; strings are dereferenced once. */
  function PayloadObj(slot: Option<Slot>, ot: ObjType, fty: Option<FieldType>): Res<Value> {
    if slot.None? then Bad(Wild)
    else if ot == StringObj then
      (if slot.value.StrSlot? then Ok(VPtr(Obj(ot, CharMem(slot.value.s), fty))) else Bad(Wild))
    else Ok(VPtr(Obj(ot, SlotMem(slot.value), fty)))
  }

  /** context_get_index */
  function ContextObj(env: Env, idx: nat): Res<Value>
    requires env.Valid()
  {
    if idx >= |env.ctx| then Bad(Wild)
    else
      var v := env.ctxVals[idx];
      match env.ctx[idx].ty
      case Integer(s) => Ok(VPtr(Obj(if s then S64Obj else U64Obj, IntMem(v.i), None)))
      case Enum(s) => Ok(VPtr(Obj(if s then SignedEnum else UnsignedEnum, IntMem(v.i), None)))
      case Array(e, _, text) =>
        if Bytewise(e) && text then Ok(VPtr(Obj(StringObj, CharMem(v.s), None))) else Bad(Error)
      case Sequence(e, text) =>
        if Bytewise(e) && text then Ok(VPtr(Obj(StringObj, CharMem(v.s), None))) else Bad(Error)
      case StringT => Ok(VPtr(Obj(StringObj, CharMem(v.s), None)))
      case _ => Bad(Error)
  }

  /** dynamic_get_index. The bound on a sequence compares a byte offset with the length of the
      data in bits, as the source does. */
  function DynamicGetIndex(env: Env, g: Gid, p: Pointer): Res<Value>
    requires env.Valid()
  {
    match p
    case PayloadRoot => PayloadObj(SlotAt(env.fields, env.slots, g.offset), g.elemType, g.fty)
    case ContextRoot => ContextObj(env, g.ctxIndex)
    case Obj(ArrayObj, SlotMem(SeqSlot(_, data)), fty) =>
      if fty.Some? && fty.value.Array? then Ok(VPtr(Obj(g.elemType, ElemMem(data, g.offset), None))) else Bad(Assertion)
    case Obj(SequenceObj, SlotMem(SeqSlot(len, data)), fty) =>
      if g.offset >= g.elemLen * len then Bad(Error)
      else if fty.Some? && fty.value.Sequence? then Ok(VPtr(Obj(g.elemType, ElemMem(data, g.offset), None)))
      else Bad(Assertion)
    case Obj(ot, _, _) => if ot == ArrayObj || ot == SequenceObj then Bad(Wild) else Bad(Error)
  }

  function Bool(b: bool): Value { VInt(if b then 1 else 0) }

  /** A comparator applied to the sign of a difference. */
  predicate Holds(c: CmpOp, d: int) {
    match c case EQ => d == 0 case NE => d != 0 case GT => d > 0 case LT => d < 0 case GE => d >= 0 case LE => d <= 0
  }

  /** Signed comparison of two words. */
  function Order(b: word, a: word): int { Signed(b) - Signed(a) }

  function BitResult(op: BitOp, b: word, a: word): Res<Value> {
    match op
    case RShift => if a >= 64 then Bad(Error) else Ok(VInt(ShiftRight(b, a)))
    case LShift => if a >= 64 then Bad(Error) else Ok(VInt(ShiftLeft(b, a)))
    case BitAnd => Ok(VInt(Word(Bitwise((x, y) => x && y, b, a, 64))))
    case BitOr => Ok(VInt(Word(Bitwise((x, y) => x || y, b, a, 64))))
    case BitXor => Ok(VInt(Word(Bitwise((x, y) => x != y, b, a, 64))))
  }

  function UnaryResult(u: UnOp, a: word): Value {
    match u case Plus => VInt(a) case Minus => VInt(Word(MODULUS - a)) case Not => Bool(a == 0)
  }

  /** stack_star_glob_match: the operand loaded as a glob is the pattern, the other the candidate. */
  ghost predicate GlobHolds(b: StrReg, a: StrReg) {
    if a.lit.GlobLiteral? then Glob.LoopMatches(Glob.Cut(a.data), Glob.Cut(b.data))
    else Glob.LoopMatches(Glob.Cut(b.data), Glob.Cut(a.data))
  }

  datatype Turn = Halt(o: Outcome) | Goto(pc: nat, stack: seq<Value>)

  function Pushed(st: seq<Value>, r: Res<Value>, pc: nat): Turn {
    if |st| >= CAPACITY then Halt(Overflow)
    else match r case Ok(v) => Goto(pc, st + [v]) case Bad(o) => Halt(o)
  }

  /** Replace the top operand. */
  function Replaced(st: seq<Value>, r: Res<Value>, pc: nat): Turn
    requires |st| >= 1
  {
    match r case Ok(v) => Goto(pc, SetAx(st, v)) case Bad(o) => Halt(o)
  }

  /** Replace the top two operands. */
  function Folded(st: seq<Value>, r: Res<Value>, pc: nat): Turn
    requires |st| >= 2
  {
    match r case Ok(v) => Goto(pc, SetAx(Pop(st), v)) case Bad(o) => Halt(o)
  }

  /** What the two-operand instructions compute, given the string order and the glob match of
      their operands. */
  function BinaryResult(op: Op, b: Value, a: Value, order: Option<int>, glob: bool): Res<Value> {
    match op
    case CmpString(c) => if b.VStr? && a.VStr? && order.Some? then Ok(Bool(Holds(c, order.value))) else Bad(Wild)
    case CmpGlob(ne) => if b.VStr? && a.VStr? then Ok(Bool(glob != ne)) else Bad(Wild)
    case CmpS64(c) => if b.VInt? && a.VInt? then Ok(Bool(Holds(c, Order(b.v, a.v)))) else Bad(Wild)
    case Bit(op) => if b.VInt? && a.VInt? then BitResult(op, b.v, a.v) else Bad(Error)
    case _ => Bad(Assertion)
  }

  function StringOrder(b: Value, a: Value): Option<int> {
    if b.VStr? && a.VStr? then StrCmp(b.s, a.s) else None
  }

  ghost predicate GlobOf(b: Value, a: Value) { b.VStr? && a.VStr? && GlobHolds(b.s, a.s) }

  ghost function BinaryTurn(op: Op, st: seq<Value>, next: nat): Turn {
    if |st| < 2 then Halt(Stuck)
    else Folded(st, BinaryResult(op, Bx(st), Ax(st), StringOrder(Bx(st), Ax(st)), GlobOf(Bx(st), Ax(st))), next)
  }

  predicate IsBinary(op: Op) { op.CmpString? || op.CmpGlob? || op.CmpS64? || op.Bit? }

  /** Instructions that replace the top of the stack. */
  function TopResult(env: Env, i: Insn, a: Value): Res<Value>
    requires env.Valid()
  {
    match i.op
    case BitNot => if a.VInt? then Ok(VInt(MODULUS - 1 - a.v)) else Bad(Wild)
    case UnaryS64(u) => if a.VInt? then Ok(UnaryResult(u, a.v)) else Bad(Wild)
    case LoadTyped(t) => if a.VPtr? && a.p.Obj? then LoadMem(t, a.p.mem) else Bad(Wild)
    case LoadField =>
      if !a.VPtr? then Bad(Wild) else if a.p.Obj? then LoadMem(a.p.ot, a.p.mem) else Bad(Error)
    case GetIndexU16 =>
      if a.VPtr? && i.arg in env.gids then DynamicGetIndex(env, env.gids[i.arg], a.p) else Bad(Wild)
    case GetIndexU64 =>
      if a.VPtr? && i.arg in env.gids then DynamicGetIndex(env, env.gids[i.arg], a.p) else Bad(Wild)
    case _ => Bad(Error)
  }

  /** Instructions that push one operand. */
  predicate IsPush(op: Op) {
    op.LoadRef? || op.LoadString? || op.LoadStarGlob? || op.LoadS64? || op.GetContextRoot? || op.GetPayloadRoot?
  }

  /** One dispatched instruction of lttng_bytecode_interpret, for a filter program. */
  ghost function StepInsn(env: Env, i: Insn, pc: nat, st: seq<Value>): Turn
    requires env.Valid()
  {
    if IsBinary(i.op) then BinaryTurn(i.op, st, pc + Size(i)) else StepOther(env, i, pc, st)
  }

  /** The instructions other than the two-operand ones. */
  function StepOther(env: Env, i: Insn, pc: nat, st: seq<Value>): Turn
    requires env.Valid() && !IsBinary(i.op)
  {
    var next := pc + Size(i);
    match i.op
    case Return =>
      if |st| < 1 then Halt(Stuck)
      else if Ax(st).VInt? then Halt(if Ax(st).v != 0 then Accept else Reject) else Halt(Error)
    case ReturnS64 =>
      if |st| < 1 then Halt(Stuck)
      else if Ax(st).VInt? then Halt(if Ax(st).v != 0 then Accept else Reject) else Halt(Wild)
    case CmpDoubleS64(_) => Halt(Assertion)
    case Logical(isOr) =>
      if |st| < 1 then Halt(Stuck)
      else if !Ax(st).VInt? then Halt(Wild)
      else if isOr then (if Ax(st).v != 0 then Goto(i.arg, SetAx(st, VInt(1))) else Goto(next, Pop(st)))
      else (if Ax(st).v == 0 then Goto(i.arg, st) else Goto(next, Pop(st)))
    case LoadRef(r) => Pushed(st, LoadReference(env, r, i.arg), next)
    case LoadString => Pushed(st, Ok(VStr(StrReg(i.str, PlainLiteral))), next)
    case LoadStarGlob => Pushed(st, Ok(VStr(StrReg(i.str, GlobLiteral))), next)
    case LoadS64 => Pushed(st, Ok(VInt(Word(i.arg))), next)
    case CastNop => Goto(next, st)
    case GetContextRoot => Pushed(st, Ok(VPtr(ContextRoot)), next)
    case GetPayloadRoot => Pushed(st, Ok(VPtr(PayloadRoot)), next)
    case GetAppContextRoot => Halt(Assertion)
    case Cmp(_) => Halt(Error)
    case Unary(_) => Halt(Error)
    case CastToS64 => Halt(Error)
    case Unsupported => Halt(Error)
    case _ => if |st| < 1 then Halt(Stuck) else Replaced(st, TopResult(env, i, Ax(st)), next)
  }

  datatype RState = RState(pc: nat, stack: seq<Value>)

  /** Dispatch at a program counter, which the interpreter does without any bounds check. */
  ghost function Step(env: Env, code: seq<byte>, st: RState): Turn
    requires env.Valid()
  {
    if st.pc >= |code| || Decode(code, st.pc).None? then Halt(Stuck)
    else StepInsn(env, Decode(code, st.pc).value, st.pc, st.stack)
  }

  /** The outcome of a run; a jump that does not go forward counts as stuck. */
  ghost function Run(env: Env, code: seq<byte>, st: RState): Outcome
    requires env.Valid()
    decreases |code| - st.pc
  {
    match Step(env, code, st)
    case Halt(o) => o
    case Goto(pc, stack) => if pc <= st.pc then Stuck else Run(env, code, RState(pc, stack))
  }
}
