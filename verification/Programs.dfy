/** Programs as lists of instructions: their bytes, and both passes over the list instead of over
    the bytes. */
module Programs {
  import opened Words
  import opened Opcodes
  import opened Validator
  import opened Fields
  import opened Specializer
  import opened Interpreter
  import opened Linked
  import opened Preservation

  /** The opcode byte, 0 for what has none. */
  function OpByte(op: Op): byte {
    if Writable(op) then ByteOf(op)
    else
      match op
      case Return => 1
      case ReturnS64 => 99
      case Bit(b) => (match b case RShift => 7 case LShift => 8 case BitAnd => 9 case BitOr => 10 case BitXor => 11)
      case Cmp(c) => 12 + CmpIndex(c)
      case Unary(u) => (match u case Plus => 48 case Minus => 49 case Not => 50)
      case BitNot => 98
      case Logical(isOr) => if isOr then 58 else 57
      case LoadRef(r) =>
        (match r
         case FieldString => 60 case FieldSequence => 61 case FieldS64 => 62 case ContextString => 71
         case ContextS64 => 72 case UserString => 74 case UserSequence => 75)
      case LoadString => 64
      case LoadStarGlob => 76
      case LoadS64 => 65
      case CastToS64 => 67
      case GetContextRoot => 79
      case GetAppContextRoot => 80
      case GetPayloadRoot => 81
      case GetSymbol => 82
      case LoadField => 86
      case _ => 0
  }

  predicate HasByte(op: Op) { !op.Unsupported? && (op.LoadTyped? ==> Writable(op)) }

  lemma OpByteBack(op: Op)
    requires HasByte(op)
    ensures OpOf(OpByte(op)) == op
  {
  }

  ghost predicate Encodable(i: Insn) {
    && HasByte(i.op)
    && (if IsStringOp(i.op) then i.arg == 0 && forall k :: 0 <= k < |i.str| ==> i.str[k] != 0
        else i.str == [] && i.arg < Pow256(OperandSize(i.op)))
  }

  function Encode(i: Insn): (s: seq<byte>)
    ensures |s| == Size(i)
  {
    [OpByte(i.op)] + if IsStringOp(i.op) then i.str + [0] else Bytes(i.arg, OperandSize(i.op))
  }

  ghost predicate Stands(code: seq<byte>, pc: nat, i: Insn) { pc < |code| && Decode(code, pc) == Some(i) }

  lemma EncodeDecodes(code: seq<byte>, pre: seq<byte>, i: Insn, post: seq<byte>, n: nat)
    requires Encodable(i) && code == pre + (Encode(i) + post) && n == |pre|
    ensures Stands(code, n, i)
  {
    assert code[n] == OpByte(i.op);
    OpByteBack(i.op);
    if IsStringOp(i.op) {
      var rest := code[n + 1..];
      assert rest == i.str + [0] + post;
      StrLenUnique(rest, |i.str|);
      assert rest[..|i.str|] == i.str;
    } else {
      assert code[n + 1..n + 1 + OperandSize(i.op)] == Bytes(i.arg, OperandSize(i.op));
      BytesRoundTrip(i.arg, OperandSize(i.op));
    }
  }

  ghost predicate AllEncodable(ins: seq<Insn>) { forall k :: 0 <= k < |ins| ==> Encodable(ins[k]) }

  function Assemble(ins: seq<Insn>): seq<byte> {
    if ins == [] then [] else Encode(ins[0]) + Assemble(ins[1..])
  }

  /** The offset of the k-th instruction. */
  function Offset(ins: seq<Insn>, k: nat): nat
    requires k <= |ins|
  {
    if k == 0 then 0 else Size(ins[0]) + Offset(ins[1..], k - 1)
  }

  lemma {:induction false} AssembledSplit(ins: seq<Insn>, k: nat)
    requires k < |ins|
    ensures Assemble(ins) == Assemble(ins[..k]) + (Encode(ins[k]) + Assemble(ins[k + 1..]))
    ensures |Assemble(ins[..k])| == Offset(ins, k)
    decreases k
  {
    if k == 0 {
      assert [] + Assemble(ins) == Assemble(ins);
    } else {
      AssembledSplit(ins[1..], k - 1);
      assert ins[1..][..k - 1] == ins[..k][1..] && ins[1..][k - 1] == ins[k] && ins[1..][k..] == ins[k + 1..];
      Associative(Encode(ins[0]), Assemble(ins[..k][1..]), Encode(ins[k]) + Assemble(ins[k + 1..]));
    }
  }

  // The passes over a list

  /** The validator accepts the instructions from a state on. */
  predicate Passes(ins: seq<Insn>, symtab: seq<byte>, st: VState) {
    ins != [] && InRange(Some(ins[0]), symtab) &&
    match VInsn(ins[0], st)
    case Rejected => false
    case Done => true
    case Next(st') => Passes(ins[1..], symtab, st')
  }

  /** The validator accepts the bytes exactly when it accepts the list. */
  lemma {:induction false} PassesAccepts(code: seq<byte>, pre: seq<byte>, ins: seq<Insn>, symtab: seq<byte>, st: VState)
    requires AllEncodable(ins) && st.pc == |pre| && code == pre + Assemble(ins)
    ensures Passes(ins, symtab, st) <==> Accepts(code, symtab, st)
    decreases |ins|
  {
    if ins != [] {
      EncodeDecodes(code, pre, ins[0], Assemble(ins[1..]), st.pc);
      if VInsn(ins[0], st).Next? {
        Associative(pre, Encode(ins[0]), Assemble(ins[1..]));
        PassesAccepts(code, pre + Encode(ins[0]), ins[1..], symtab, VInsn(ins[0], st).st);
      }
    }
  }

  /** The specializer's rewrite of the instructions, and the lookup data at its end. */
  function Specialized(src: Source, ins: seq<Insn>, stack: seq<Entry>, arena: Arena): Option<(seq<Insn>, Arena)> {
    if ins == [] then None
    else if IsReturn(ins[0].op) then Some((ins, arena))
    else
      match SpecInsn(src, ins[0], stack, arena)
      case None => None
      case Some(o) =>
        match Specialized(src, ins[1..], o.stack, o.arena)
        case None => None
        case Some((rest, end)) => Some(([Insn(o.op, o.arg, ins[0].str)] + rest, end))
  }

  lemma RewriteEncodes(src: Source, i: Insn, stack: seq<Entry>, arena: Arena)
    requires Encodable(i) && SpecInsn(src, i, stack, arena).Some?
    ensures var o := SpecInsn(src, i, stack, arena).value;
            var i' := Insn(o.op, o.arg, i.str);
            && Encodable(i') && Size(i') == Size(i)
            && ((o.op != i.op || o.arg != i.arg) ==>
                  Writable(o.op) && OperandSize(o.op) == OperandSize(i.op) && !IsStringOp(i.op))
  {
    assert OperandSize(i.op) == 0 ==> i.arg == 0;
    SpecInsnShape(src, i, stack, arena);
  }

  lemma PatchEncoded(pre: seq<byte>, i: Insn, op: Op, arg: nat, post: seq<byte>)
    requires Encodable(i) && i.str == [] && !IsStringOp(i.op) && Writable(op) && OperandSize(op) == OperandSize(i.op)
    ensures Patch(pre + Encode(i) + post, |pre|, op, arg) == pre + Encode(Insn(op, arg, [])) + post
  {
    var code, n := pre + Encode(i) + post, OperandSize(op);
    assert code[..|pre|] == pre && code[|pre| + 1 + n..] == post;
    assert ByteOf(op) == OpByte(op);
    Associative(pre, [ByteOf(op)], Bytes(arg, n));
  }

  /** The code after one turn of the specializer. */
  lemma Rewritten(code: seq<byte>, pre: seq<byte>, i: Insn, i': Insn, rest: seq<byte>)
    requires Encodable(i) && Encodable(i') && Size(i') == Size(i) && i'.str == i.str && code == pre + (Encode(i) + rest)
    requires (i'.op != i.op || i'.arg != i.arg) ==>
               Writable(i'.op) && OperandSize(i'.op) == OperandSize(i.op) && !IsStringOp(i.op)
    ensures |pre| + 1 + OperandSize(i'.op) <= |code|
    ensures pre + Encode(i') + rest ==
            if i'.op == i.op && i'.arg == i.arg then code else Patch(code, |pre|, i'.op, i'.arg)
  {
    Associative(pre, Encode(i), rest);
    if i'.op != i.op || i'.arg != i.arg {
      PatchEncoded(pre, i, i'.op, i'.arg, rest);
    }
  }

  lemma SStepIs(src: Source, st: SState, i: Insn, o: Out, code': seq<byte>)
    requires Stands(st.code, st.pc, i) && SpecInsn(src, i, st.stack, st.arena) == Some(o)
    requires o.op == i.op && o.arg == i.arg ==> code' == st.code
    requires o.op != i.op || o.arg != i.arg ==>
               Writable(o.op) && st.pc + 1 + OperandSize(o.op) <= |st.code|
               && code' == Patch(st.code, st.pc, o.op, o.arg)
    ensures SStep(src, st) == Some(SState(st.pc + Size(i), o.stack, code', o.arena))
  {
    SStepTaken(src, st, i, o, code');
  }

  lemma PatchAssembled(src: Source, st: SState, pre: seq<byte>, i: Insn, rest: seq<byte>, o: Out, i': Insn,
                       code': seq<byte>)
    requires Encodable(i) && SpecInsn(src, i, st.stack, st.arena) == Some(o) && i' == Insn(o.op, o.arg, i.str)
    requires st.pc == |pre| && st.code == pre + (Encode(i) + rest) && code' == pre + Encode(i') + rest
    ensures Encodable(i') && Size(i') == Size(i)
    ensures o.op == i.op && o.arg == i.arg ==> code' == st.code
    ensures o.op != i.op || o.arg != i.arg ==>
              Writable(o.op) && st.pc + 1 + OperandSize(o.op) <= |st.code|
              && code' == Patch(st.code, st.pc, o.op, o.arg)
  {
    RewriteEncodes(src, i, st.stack, st.arena);
    Rewritten(st.code, pre, i, i', rest);
  }

  /** One turn of the specializer on assembled code. */
  lemma SStepAssembled(src: Source, st: SState, pre: seq<byte>, i: Insn, rest: seq<byte>, o: Out, i': Insn)
    requires Encodable(i) && SpecInsn(src, i, st.stack, st.arena) == Some(o) && i' == Insn(o.op, o.arg, i.str)
    requires st.pc == |pre| && st.code == pre + (Encode(i) + rest)
    ensures Encodable(i') && Stands(st.code, st.pc, i)
    ensures SStep(src, st) == Some(SState(|pre + Encode(i')|, o.stack, pre + Encode(i') + rest, o.arena))
  {
    var code' := pre + Encode(i') + rest;
    EncodeDecodes(st.code, pre, i, rest, st.pc);
    PatchAssembled(src, st, pre, i, rest, o, i', code');
    SStepIs(src, st, i, o, code');
  }

  lemma SpecFromTurn(src: Source, st: SState, i: Insn, st': SState)
    requires Stands(st.code, st.pc, i) && !IsReturn(i.op) && SStep(src, st) == Some(st')
    ensures SpecFrom(src, st) == SpecFrom(src, st')
  {
  }

  lemma AssembleCons(pre: seq<byte>, first: Insn, rest: seq<Insn>)
    ensures pre + Encode(first) + Assemble(rest) == pre + Assemble([first] + rest)
  {
    assert ([first] + rest)[1..] == rest;
    Associative(pre, Encode(first), Assemble(rest));
  }

  lemma SStepFails(src: Source, st: SState, i: Insn)
    requires Stands(st.code, st.pc, i) && !IsReturn(i.op) && SpecInsn(src, i, st.stack, st.arena).None?
    ensures SpecFrom(src, st).None?
  {
  }

  /** The pass over assembled code behind its first instruction. */
  lemma FinalTurn(src: Source, st: SState, pre: seq<byte>, ins: seq<Insn>, o: Out, first: Insn, st': SState)
    requires ins != [] && Encodable(ins[0]) && !IsReturn(ins[0].op) && first == Insn(o.op, o.arg, ins[0].str)
    requires SpecInsn(src, ins[0], st.stack, st.arena) == Some(o)
    requires st.pc == |pre| && st.code == pre + Assemble(ins)
    requires st' == SState(|pre + Encode(first)|, o.stack, (pre + Encode(first)) + Assemble(ins[1..]), o.arena)
    ensures Encodable(first) && SpecFrom(src, st) == SpecFrom(src, st')
  {
    SStepAssembled(src, st, pre, ins[0], Assemble(ins[1..]), o, first);
    SpecFromTurn(src, st, ins[0], st');
  }

  /** The pass ends at a return, and fails where it cannot rewrite or has no instruction left. */
  lemma FinalEnd(src: Source, st: SState, pre: seq<byte>, ins: seq<Insn>)
    requires AllEncodable(ins) && st.pc == |pre| && st.code == pre + Assemble(ins)
    ensures ins == [] ==> SpecFrom(src, st).None?
    ensures ins != [] && IsReturn(ins[0].op) ==> SpecFrom(src, st) == Some(st)
    ensures ins != [] && !IsReturn(ins[0].op) && SpecInsn(src, ins[0], st.stack, st.arena).None? ==>
              SpecFrom(src, st).None?
  {
    if ins != [] {
      EncodeDecodes(st.code, pre, ins[0], Assemble(ins[1..]), st.pc);
      if !IsReturn(ins[0].op) && SpecInsn(src, ins[0], st.stack, st.arena).None? {
        SStepFails(src, st, ins[0]);
      }
    }
  }

  /** The final state is that of the rewritten list. */
  ghost predicate Finishes(src: Source, st: SState, pre: seq<byte>, r: Option<(seq<Insn>, Arena)>, n: nat) {
    var f := SpecFrom(src, st);
    if r.None? then f.None?
    else
      && f.Some? && AllEncodable(r.value.0) && |r.value.0| == n
      && f.value.code == pre + Assemble(r.value.0) && f.value.arena == r.value.1
  }

  /** The specializer takes the bytes exactly when it takes the list, and leaves the bytes of the
      rewritten list. */
  lemma {:induction false} SpecializedIsFinal(src: Source, st: SState, pre: seq<byte>, ins: seq<Insn>)
    requires AllEncodable(ins) && st.pc == |pre| && st.code == pre + Assemble(ins)
    ensures Finishes(src, st, pre, Specialized(src, ins, st.stack, st.arena), |ins|)
    decreases |ins|
  {
    FinalEnd(src, st, pre, ins);
    if ins != [] && !IsReturn(ins[0].op) {
      var x := SpecInsn(src, ins[0], st.stack, st.arena);
      if x.Some? {
        var first := Insn(x.value.op, x.value.arg, ins[0].str);
        var pre', rest := pre + Encode(first), ins[1..];
        var st' := SState(|pre'|, x.value.stack, pre' + Assemble(rest), x.value.arena);
        FinalTurn(src, st, pre, ins, x.value, first, st');
        SpecializedIsFinal(src, st', pre', rest);
        var r := Specialized(src, rest, x.value.stack, x.value.arena);
        if r.Some? {
          AssembleCons(pre, first, r.value.0);
        }
      }
    }
  }

  /** A program that both passes take as a list is linked, to the bytes of the rewritten list. */
  lemma ListLinked(src: Source, ins: seq<Insn>)
    requires AllEncodable(ins) && Passes(ins, src.symtab, INIT) && Specialized(src, ins, [], Arena(map[], 0)).Some?
    ensures var (outs, end) := Specialized(src, ins, [], Arena(map[], 0)).value;
            && AllEncodable(outs) && |outs| == |ins| && IsLinked(Assemble(ins), src)
            && FinalCode(Assemble(ins), src) == Assemble(outs) && FinalGids(Assemble(ins), src) == end.gids
  {
    assert [] + Assemble(ins) == Assemble(ins);
    PassesAccepts(Assemble(ins), [], ins, src.symtab, INIT);
    SpecializedIsFinal(src, Start(Assemble(ins)), [], ins);
    var outs := Specialized(src, ins, [], Arena(map[], 0)).value.0;
    assert [] + Assemble(outs) == Assemble(outs);
  }

  lemma InsnHeld(ins: seq<Insn>, k: nat, pc: nat)
    requires AllEncodable(ins) && k < |ins| && pc == Offset(ins, k)
    ensures Stands(Assemble(ins), pc, ins[k])
  {
    AssembledSplit(ins, k);
    EncodeDecodes(Assemble(ins), Assemble(ins[..k]), ins[k], Assemble(ins[k + 1..]), pc);
  }
}
