/** The filter/capture bytecode: opcodes, instruction layouts, decoding from the
    code buffer and in-place rewriting of one instruction. */
module Opcodes {
  import opened Words

  datatype CmpOp = EQ | NE | GT | LT | GE | LE
  datatype BitOp = RShift | LShift | BitAnd | BitOr | BitXor
  datatype UnOp = Plus | Minus | Not
  datatype RefOp = FieldString | FieldSequence | FieldS64 | ContextString | ContextS64 | UserString | UserSequence

  /** What a loaded pointer points at; the first ten are the targets of the typed load opcodes. */
  datatype ObjType =
    | S8 | S16 | S32 | S64Obj | U8 | U16 | U32 | U64Obj | StringObj | StringSequence
    | SignedEnum | UnsignedEnum | SequenceObj | ArrayObj

  datatype Op =
    | Return | ReturnS64
    | Bit(b: BitOp)
    | Cmp(c: CmpOp) | CmpString(c: CmpOp) | CmpS64(c: CmpOp) | CmpDoubleS64(c: CmpOp) | CmpGlob(ne: bool)
    | Unary(u: UnOp) | UnaryS64(u: UnOp) | BitNot
    | Logical(isOr: bool)
    | LoadRef(r: RefOp)
    | LoadString | LoadStarGlob | LoadS64
    | CastToS64 | CastNop
    | GetContextRoot | GetAppContextRoot | GetPayloadRoot
    | GetSymbol | GetIndexU16 | GetIndexU64
    | LoadField | LoadTyped(t: ObjType)
    | Unsupported

  function CmpOfIndex(k: int): CmpOp {
    if k == 0 then EQ else if k == 1 then NE else if k == 2 then GT
    else if k == 3 then LT else if k == 4 then GE else LE
  }

  function CmpIndex(c: CmpOp): (k: int)
    ensures 0 <= k < 6 && CmpOfIndex(k) == c
  {
    match c case EQ => 0 case NE => 1 case GT => 2 case LT => 3 case GE => 4 case LE => 5
  }

  /** The opcode numbers of enum bytecode_op. */
  function OpOf(b: byte): Op {
    if b == 1 then Return
    else if b == 7 then Bit(RShift) else if b == 8 then Bit(LShift) else if b == 9 then Bit(BitAnd)
    else if b == 10 then Bit(BitOr) else if b == 11 then Bit(BitXor)
    else if 12 <= b <= 17 then Cmp(CmpOfIndex(b - 12))
    else if 18 <= b <= 23 then CmpString(CmpOfIndex(b - 18))
    else if 24 <= b <= 29 then CmpS64(CmpOfIndex(b - 24))
    else if 36 <= b <= 41 then CmpDoubleS64(CmpOfIndex(b - 36))
    else if b == 48 then Unary(Plus) else if b == 49 then Unary(Minus) else if b == 50 then Unary(Not)
    else if b == 51 then UnaryS64(Plus) else if b == 52 then UnaryS64(Minus) else if b == 53 then UnaryS64(Not)
    else if b == 57 then Logical(false) else if b == 58 then Logical(true)
    else if b == 60 then LoadRef(FieldString) else if b == 61 then LoadRef(FieldSequence)
    else if b == 62 then LoadRef(FieldS64)
    else if b == 64 then LoadString else if b == 65 then LoadS64
    else if b == 67 then CastToS64 else if b == 69 then CastNop
    else if b == 71 then LoadRef(ContextString) else if b == 72 then LoadRef(ContextS64)
    else if b == 74 then LoadRef(UserString) else if b == 75 then LoadRef(UserSequence)
    else if b == 76 then LoadStarGlob
    else if b == 77 then CmpGlob(false) else if b == 78 then CmpGlob(true)
    else if b == 79 then GetContextRoot else if b == 80 then GetAppContextRoot else if b == 81 then GetPayloadRoot
    else if b == 82 then GetSymbol else if b == 84 then GetIndexU16 else if b == 85 then GetIndexU64
    else if b == 86 then LoadField
    else if b == 87 then LoadTyped(S8) else if b == 88 then LoadTyped(S16)
    else if b == 89 then LoadTyped(S32) else if b == 90 then LoadTyped(S64Obj)
    else if b == 91 then LoadTyped(U8) else if b == 92 then LoadTyped(U16)
    else if b == 93 then LoadTyped(U32) else if b == 94 then LoadTyped(U64Obj)
    else if b == 95 then LoadTyped(StringObj) else if b == 96 then LoadTyped(StringSequence)
    else if b == 98 then BitNot else if b == 99 then ReturnS64
    else Unsupported
  }

  /** The opcodes the specializer writes. */
  predicate Writable(op: Op) {
    || op.CmpString? || op.CmpS64? || op.CmpDoubleS64? || op.CmpGlob? || op.UnaryS64?
    || op.CastNop? || op.GetIndexU16? || op.GetIndexU64?
    || (op.LoadTyped? && (op.t.S8? || op.t.S16? || op.t.S32? || op.t.S64Obj? || op.t.U8? || op.t.U16?
                          || op.t.U32? || op.t.U64Obj? || op.t.StringObj? || op.t.StringSequence?))
  }

  function ByteOf(op: Op): (b: byte)
    requires Writable(op)
    ensures OpOf(b) == op
  {
    match op
    case CmpString(c) => 18 + CmpIndex(c)
    case CmpS64(c) => 24 + CmpIndex(c)
    case CmpDoubleS64(c) => 36 + CmpIndex(c)
    case CmpGlob(ne) => if ne then 78 else 77
    case UnaryS64(u) => (match u case Plus => 51 case Minus => 52 case Not => 53)
    case CastNop => 69
    case GetIndexU16 => 84
    case GetIndexU64 => 85
    case LoadTyped(t) =>
      (match t
       case S8 => 87 case S16 => 88 case S32 => 89 case S64Obj => 90
       case U8 => 91 case U16 => 92 case U32 => 93 case U64Obj => 94
       case StringObj => 95 case StringSequence => 96)
  }

  /** A decoded instruction: opcode, integer operand, string operand. */
  datatype Insn = Insn(op: Op, arg: nat, str: seq<byte>)

  /** Bytes of fixed operand after the opcode, from the packed instruction structs. */
  function OperandSize(op: Op): nat {
    match op
    case Logical(_) => 2
    case LoadRef(_) => 2
    case GetSymbol => 2
    case GetIndexU16 => 2
    case GetIndexU64 => 8
    case LoadS64 => 8
    case _ => 0
  }

  predicate IsStringOp(op: Op) { op.LoadString? || op.LoadStarGlob? }

  function Size(i: Insn): (n: nat)
    ensures n >= 1
  {
    if IsStringOp(i.op) then 1 + |i.str| + 1 else 1 + OperandSize(i.op)
  }

  /** The instruction at pc, if it lies wholly inside the code. */
  function Decode(code: seq<byte>, pc: nat): Option<Insn>
    requires pc < |code|
  {
    var op := OpOf(code[pc]);
    if IsStringOp(op) then
      var rest := code[pc + 1..];
      var n := StrLen(rest);
      if n == |rest| then None else Some(Insn(op, 0, rest[..n]))
    else if pc + 1 + OperandSize(op) > |code| then None
    else Some(Insn(op, LittleEndian(code[pc + 1..pc + 1 + OperandSize(op)]), []))
  }

  lemma DecodeFits(code: seq<byte>, pc: nat)
    requires pc < |code|
    ensures Decode(code, pc).Some? ==> pc + Size(Decode(code, pc).value) <= |code|
  {}

  /** Decoding reads only the bytes of the instruction itself. */
  lemma DecodeFrame(code: seq<byte>, code': seq<byte>, pc: nat)
    requires |code| == |code'| && pc < |code|
    requires Decode(code, pc).Some?
    requires var end := pc + Size(Decode(code, pc).value);
             end <= |code| && code[pc..end] == code'[pc..end]
    ensures Decode(code', pc) == Decode(code, pc)
  {
    var i := Decode(code, pc).value;
    var end := pc + Size(i);
    assert code[pc] == code[pc..end][0] == code'[pc..end][0] == code'[pc];
    if IsStringOp(i.op) {
      var n := |i.str|;
      var rest' := code'[pc + 1..];
      forall k | 0 <= k <= n ensures rest'[k] == code[pc + 1..][k] {
        assert rest'[k] == code'[pc..end][k + 1] == code[pc..end][k + 1];
      }
      StrLenUnique(rest', n);
      assert rest'[..n] == code[pc + 1..][..n];
    } else {
      assert code[pc + 1..end] == code[pc..end][1..];
      assert code'[pc + 1..end] == code'[pc..end][1..];
    }
  }

  /** The code with the instruction at pc replaced by opcode op and operand arg of the same size. */
  function Patch(code: seq<byte>, pc: nat, op: Op, arg: nat): (r: seq<byte>)
    requires Writable(op) && pc + 1 + OperandSize(op) <= |code|
    ensures |r| == |code|
  {
    code[..pc] + [ByteOf(op)] + Bytes(arg, OperandSize(op)) + code[pc + 1 + OperandSize(op)..]
  }

  /** Rewriting changes exactly the addressed instruction. */
  lemma PatchDecodes(code: seq<byte>, pc: nat, op: Op, arg: nat)
    requires Writable(op) && pc + 1 + OperandSize(op) <= |code|
    requires arg < Pow256(OperandSize(op))
    ensures Decode(Patch(code, pc, op, arg), pc) == Some(Insn(op, arg, []))
    ensures Patch(code, pc, op, arg)[..pc] == code[..pc]
    ensures Patch(code, pc, op, arg)[pc + 1 + OperandSize(op)..] == code[pc + 1 + OperandSize(op)..]
  {
    var r := Patch(code, pc, op, arg);
    assert r[pc + 1..pc + 1 + OperandSize(op)] == Bytes(arg, OperandSize(op));
    BytesRoundTrip(arg, OperandSize(op));
  }
}
