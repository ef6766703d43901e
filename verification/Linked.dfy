/** The validator's pass and the specializer's pass side by side: they visit the same
    instructions, and each visited instruction of the rewritten code is the specialization of
    the original instruction at the same offset. */
module Linked {
  import opened Words
  import opened Opcodes
  import opened Validator
  import opened Fields
  import opened Specializer

  /** Both passes stand before the same instruction, and the code from there on is original. */
  ghost predicate InStep(code: seq<byte>, src: Source, v: VState, s: SState) {
    && Accepts(code, src.symtab, v) && SpecFrom(src, s).Some?
    && v.pc == s.pc && |s.code| == |code| && s.code[s.pc..] == code[s.pc..]
    && s.arena.Valid()
  }

  /** A program as it stands after relocation that passes validation and then specialization. */
  ghost predicate IsLinked(code: seq<byte>, src: Source) {
    Accepts(code, src.symtab, INIT) && SpecFrom(src, Start(code)).Some?
  }

  ghost function FinalCode(code: seq<byte>, src: Source): seq<byte>
    requires IsLinked(code, src)
  {
    SpecFrom(src, Start(code)).value.code
  }

  ghost function FinalGids(code: seq<byte>, src: Source): map<nat, Gid>
    requires IsLinked(code, src)
  {
    SpecFrom(src, Start(code)).value.arena.gids
  }

  /** The instruction at pc is the same in two buffers that agree from pc on. */
  lemma DecodeSuffix(code: seq<byte>, code': seq<byte>, pc: nat)
    requires |code| == |code'| && pc < |code| && code[pc..] == code'[pc..]
    ensures Decode(code, pc) == Decode(code', pc)
  {
    assert code[pc] == code[pc..][0] == code'[pc..][0] == code'[pc];
    assert code[pc + 1..] == code[pc..][1..] == code'[pc..][1..] == code'[pc + 1..];
    var n := OperandSize(OpOf(code[pc]));
    if pc + 1 + n <= |code| {
      assert code[pc + 1..pc + 1 + n] == code[pc + 1..][..n] == code'[pc + 1..][..n] == code'[pc + 1..pc + 1 + n];
    }
  }

  predicate IsReturn(op: Op) { op.Return? || op.ReturnS64? }

  lemma EmptyOperand(code: seq<byte>, pc: nat)
    requires pc < |code| && Decode(code, pc).Some?
    ensures OperandSize(Decode(code, pc).value.op) == 0 ==> Decode(code, pc).value.arg == 0
  {}

  /** One turn of the specializer: the rewritten instruction, and original code after it. */
  lemma SStepWrites(src: Source, s: SState)
    requires s.pc < |s.code| && SStep(src, s).Some?
    ensures var i, s' := Decode(s.code, s.pc).value, SStep(src, s).value;
            var o := SpecInsn(src, i, s.stack, s.arena).value;
            && s'.pc == s.pc + Size(i) <= |s.code| && s'.arena == o.arena
            && Decode(s'.code, s.pc) == Some(Insn(o.op, o.arg, i.str))
            && Size(Insn(o.op, o.arg, i.str)) == Size(i)
            && s'.code[s'.pc..] == s.code[s'.pc..]
            && (s.arena.Valid() ==> s'.arena.Valid())
  {
    var i := Decode(s.code, s.pc).value;
    var o := SpecInsn(src, i, s.stack, s.arena).value;
    DecodeFits(s.code, s.pc);
    EmptyOperand(s.code, s.pc);
    SpecInsnShape(src, i, s.stack, s.arena);
    if o.op != i.op || o.arg != i.arg {
      PatchDecodes(s.code, s.pc, o.op, o.arg);
    }
  }

  /** Both passes advance together. */
  lemma InStepNext(code: seq<byte>, src: Source, v: VState, s: SState)
    requires InStep(code, src, v, s) && VStep(code, src.symtab, v).Next?
    ensures SStep(src, s).Some?
    ensures InStep(code, src, VStep(code, src.symtab, v).st, SStep(src, s).value)
    ensures SpecFrom(src, SStep(src, s).value) == SpecFrom(src, s)
  {
    DecodeSuffix(code, s.code, v.pc);
    SStepWrites(src, s);
    var n := Size(Decode(code, v.pc).value);
    assert code[v.pc + n..] == code[v.pc..][n..] == s.code[v.pc..][n..] == s.code[v.pc + n..];
  }

  /** What the finished pass leaves at the current offset. */
  lemma InStepInsn(code: seq<byte>, src: Source, v: VState, s: SState)
    requires InStep(code, src, v, s)
    ensures Decode(code, v.pc).Some?
    ensures v.pc < |SpecFrom(src, s).value.code|
    ensures var i, f := Decode(code, v.pc).value, SpecFrom(src, s).value;
            if IsReturn(i.op) then Decode(f.code, v.pc) == Some(i)
            else
              var o := SpecInsn(src, i, s.stack, s.arena);
              && o.Some? && Decode(f.code, v.pc) == Some(Insn(o.value.op, o.value.arg, i.str))
              && (forall k :: k in o.value.arena.gids ==> k in f.arena.gids && f.arena.gids[k] == o.value.arena.gids[k])
  {
    DecodeSuffix(code, s.code, v.pc);
    if !IsReturn(Decode(code, v.pc).value.op) {
      InStepNext(code, src, v, s);
      SStepWrites(src, s);
      WrittenStays(src, s.pc, SStep(src, s).value);
    }
  }

  /** An instruction the pass has gone past is final, and so is its lookup data. */
  lemma WrittenStays(src: Source, pc: nat, s: SState)
    requires pc < s.pc <= |s.code| && Decode(s.code, pc).Some? && pc + Size(Decode(s.code, pc).value) == s.pc
    requires SpecFrom(src, s).Some? && s.arena.Valid()
    ensures var f := SpecFrom(src, s).value;
            && Decode(f.code, pc) == Decode(s.code, pc)
            && (forall k :: k in s.arena.gids ==> k in f.arena.gids && f.arena.gids[k] == s.arena.gids[k])
  {
    SpecFromPrefix(src, s);
    forall k | k in s.arena.gids
      ensures k in SpecFrom(src, s).value.arena.gids && SpecFrom(src, s).value.arena.gids[k] == s.arena.gids[k]
    {
      SpecFromKeepsGids(src, s, k);
    }
    DecodePrefix(s.code, SpecFrom(src, s).value.code, pc, s.pc);
  }

  lemma DecodePrefix(code: seq<byte>, code': seq<byte>, pc: nat, end: nat)
    requires pc < end <= |code| == |code'| && code[..end] == code'[..end]
    requires Decode(code, pc).Some? && pc + Size(Decode(code, pc).value) == end
    ensures Decode(code', pc) == Decode(code, pc)
  {
    assert code[pc..end] == code[..end][pc..] == code'[..end][pc..] == code'[pc..end];
    DecodeFrame(code, code', pc);
  }

  /** (v', s') is the pair of pass states the two passes reach together from (v, s). */
  ghost predicate Reaches(code: seq<byte>, src: Source, v: VState, s: SState, v': VState, s': SState)
    requires InStep(code, src, v, s)
    decreases |code| - v.pc
  {
    (v == v' && s == s') ||
    (VStep(code, src.symtab, v).Next? &&
     (InStepNext(code, src, v, s);
      Reaches(code, src, VStep(code, src.symtab, v).st, SStep(src, s).value, v', s')))
  }

  /** The specializer reaches every state the validator visits, in step with it. */
  lemma {:induction false} PassesMeet(code: seq<byte>, src: Source, v: VState, s: SState, v': VState)
      returns (s': SState)
    requires InStep(code, src, v, s) && Visits(code, src.symtab, v, v')
    ensures InStep(code, src, v', s') && SpecFrom(src, s') == SpecFrom(src, s)
    ensures Reaches(code, src, v, s, v', s')
    decreases |code| - v.pc
  {
    if v == v' {
      s' := s;
    } else {
      InStepNext(code, src, v, s);
      s' := PassesMeet(code, src, VStep(code, src.symtab, v).st, SStep(src, s).value, v');
    }
  }

  lemma LinkedInStep(code: seq<byte>, src: Source)
    requires IsLinked(code, src)
    ensures InStep(code, src, INIT, Start(code))
  {}

  /** Reached pairs are in step, visited by the validator, and determined by the offset. */
  lemma {:induction false} ReachesProperties(code: seq<byte>, src: Source, v: VState, s: SState, v': VState, s': SState)
    requires InStep(code, src, v, s) && Reaches(code, src, v, s, v', s')
    ensures InStep(code, src, v', s') && SpecFrom(src, s') == SpecFrom(src, s)
    ensures Visits(code, src.symtab, v, v')
    decreases |code| - v.pc
  {
    if !(v == v' && s == s') {
      InStepNext(code, src, v, s);
      ReachesProperties(code, src, VStep(code, src.symtab, v).st, SStep(src, s).value, v', s');
    }
  }

  lemma {:induction false} ReachesNext(code: seq<byte>, src: Source, v: VState, s: SState, v': VState, s': SState)
    requires InStep(code, src, v, s) && Reaches(code, src, v, s, v', s') && InStep(code, src, v', s')
    requires VStep(code, src.symtab, v').Next?
    ensures SStep(src, s').Some?
    ensures Reaches(code, src, v, s, VStep(code, src.symtab, v').st, SStep(src, s').value)
    decreases |code| - v.pc
  {
    InStepNext(code, src, v', s');
    if !(v == v' && s == s') {
      InStepNext(code, src, v, s);
      ReachesNext(code, src, VStep(code, src.symtab, v).st, SStep(src, s).value, v', s');
    }
  }
}
