/** Signed and unsigned: when the register types found at run time are the very ones the validator
    computed. */
module Signedness {
  import opened Words
  import opened Opcodes
  import opened Validator
  import opened Specializer
  import opened Interpreter
  import opened Linked
  import opened Soundness
  import opened Registers
  import opened RegisterRuns

  /** The register type kept for the k-th of n entries. */
  function TypeAt(r: Regs, n: nat, k: nat): RegType
    requires |r.e| == STACK_LEN && k < n <= CAPACITY
  {
    if k == n - 1 then r.axT else if k == n - 2 then r.bxT else r.e[k + 2].ty
  }

  /** Where the validator computed S64 or U64, that is the type of the integer kept. */
  ghost predicate SignsAgree(r: Regs, ts: seq<RegType>, vs: seq<Value>) {
    && Represents(r, vs) && |ts| == |vs|
    && forall k :: 0 <= k < |ts| && IsInt(ts[k]) ==> SignAgrees(r, |vs|, k, ts[k])
  }

  ghost predicate SignAgrees(r: Regs, n: nat, k: nat, t: RegType)
    requires |r.e| == STACK_LEN && k < n <= CAPACITY
  {
    TypeAt(r, n, k) == t
  }

  /** The operators that leave S64 where the validator has U64. */
  predicate LosesSign(i: Insn, ts: seq<RegType>) {
    || i.op.BitNot?
    || ((i.op == Unary(Not) || i.op == UnaryS64(Not) || i.op == UnaryS64(Minus)) && |ts| >= 1 && Ax(ts) == U64)
  }

  /** The validator's types after a turn. */
  function TypesAfter(i: Insn, ts: seq<RegType>, falls: bool): seq<RegType>
    requires Exec(i.op, ts).Some?
  {
    if falls then Exec(i.op, ts).value else ts
  }

  lemma PushSigns(r: Regs, ts: seq<RegType>, vs: seq<Value>, r': Regs, vs': seq<Value>, t: RegType)
    requires SignsAgree(r, ts, vs) && |vs| < CAPACITY && Represents(r', vs') && |vs'| == |vs| + 1
    requires r'.e[..r.top] == PushRegs(r).e[..r.top] && r'.bxT == r.axT && (IsInt(t) ==> r'.axT == t)
    ensures SignsAgree(r', ts + [t], vs')
  {
    var ts' := ts + [t];
    forall k | 0 <= k < |ts'| && IsInt(ts'[k]) ensures SignAgrees(r', |vs'|, k, ts'[k]) {
      if k < |vs| {
        assert SignAgrees(r, |vs|, k, ts[k]);
        if k < |vs| - 1 {
          assert r'.e[k + 2] == r'.e[..r.top][k + 2] == PushRegs(r).e[k + 2];
        }
      }
    }
  }

  lemma PopSigns(r: Regs, ts: seq<RegType>, vs: seq<Value>)
    requires SignsAgree(r, ts, vs) && |vs| >= 1
    ensures SignsAgree(PopRegs(r), Pop(ts), Pop(vs))
  {
    PopKeeps(r, vs);
    forall k | 0 <= k < |vs| - 1 && IsInt(ts[k]) ensures SignAgrees(PopRegs(r), |vs| - 1, k, ts[k]) {
      assert SignAgrees(r, |vs|, k, ts[k]);
    }
  }

  /** With the top entry replaced, only its own type counts. */
  lemma TopSigns(r: Regs, ts: seq<RegType>, vs: seq<Value>, r': Regs, vs': seq<Value>, t: RegType)
    requires SignsAgree(r, ts, vs) && |vs| >= 1 && Represents(r', vs') && |vs'| == |vs|
    requires r'.e[..r.top] == r.e[..r.top] && r'.bxT == r.bxT
    ensures SignsAgree(r', SetAx(ts, t), vs') <==> (IsInt(t) ==> r'.axT == t)
  {
    var ts' := SetAx(ts, t);
    forall k | 0 <= k < |vs| - 1 && IsInt(ts'[k]) ensures SignAgrees(r', |vs|, k, ts'[k]) {
      assert SignAgrees(r, |vs|, k, ts[k]);
      assert r'.e[k + 2] == r'.e[..r.top][k + 2] == r.e[k + 2];
    }
    assert IsInt(t) ==> (SignAgrees(r', |vs|, |vs| - 1, ts'[|vs| - 1]) <==> r'.axT == t);
  }

  /** A turn that both machines take, by falling through or by jumping. */
  ghost predicate Turns(env: Env, i: Insn, i': Insn, pc: nat, ts: seq<RegType>, r: Regs, vs: seq<Value>, falls: bool)
    requires env.Valid() && Exec(i.op, ts).Some?
  {
    && Represents(r, vs) && Kinds(ts, vs) && ContextOk(i, pc, ts) && Rewrites(i, i')
    && var t := StepInsn(env, i', pc, vs);
    && t.Goto? && Follows(RegInsn(env, i', pc, r), t) && |t.stack| == |TypesAfter(i, ts, falls)|
    && (!falls ==> i.op.Logical?)
  }

  lemma LogicalSigns(env: Env, i: Insn, i': Insn, pc: nat, ts: seq<RegType>, r: Regs, vs: seq<Value>, falls: bool)
    requires env.Valid() && Exec(i.op, ts).Some? && Turns(env, i, i', pc, ts, r, vs, falls) && i.op.Logical?
    requires SignsAgree(r, ts, vs)
    ensures SignsAgree(RegInsn(env, i', pc, r).r, TypesAfter(i, ts, falls), StepInsn(env, i', pc, vs).stack)
  {
    if falls {
      PopSigns(r, ts, vs);
    } else {
      var c, t := RegInsn(env, i', pc, r), StepInsn(env, i', pc, vs);
      assert SetAx(ts, Ax(ts)) == ts;
      assert IsInt(Ax(ts)) ==> SignAgrees(r, |vs|, |vs| - 1, Ax(ts));
      TopSigns(r, ts, vs, c.r, t.stack, Ax(ts));
    }
  }

  /** The register type that an instruction on the top entry leaves, and the validator's. */
  lemma TopTypes(env: Env, i: Insn, i': Insn, pc: nat, ts: seq<RegType>, r: Regs, vs: seq<Value>)
    requires env.Valid() && Exec(i.op, ts).Some? && Turns(env, i, i', pc, ts, r, vs, true) && SignsAgree(r, ts, vs)
    requires !IsPush(i.op) && !IsBinary(i'.op) && !i.op.Logical? && !i.op.CastNop?
    ensures |ts| >= 1 && Exec(i.op, ts).value == SetAx(ts, Ax(Exec(i.op, ts).value))
    ensures var c := RegInsn(env, i', pc, r);
            && c.r.e[..r.top] == r.e[..r.top] && c.r.bxT == r.bxT
            && ((IsInt(Ax(Exec(i.op, ts).value)) ==> c.r.axT == Ax(Exec(i.op, ts).value)) <==> !LosesSign(i, ts))
  {
    assert IsInt(Ax(ts)) ==> SignAgrees(r, |vs|, |vs| - 1, Ax(ts));
  }

  /** One instruction keeps the agreement of signs exactly when it is not one of the operators
      that lose it. */
  lemma SignsExactly(env: Env, i: Insn, i': Insn, pc: nat, ts: seq<RegType>, r: Regs, vs: seq<Value>, falls: bool)
    requires env.Valid() && Exec(i.op, ts).Some? && Turns(env, i, i', pc, ts, r, vs, falls) && SignsAgree(r, ts, vs)
    ensures SignsAgree(RegInsn(env, i', pc, r).r, TypesAfter(i, ts, falls), StepInsn(env, i', pc, vs).stack)
            <==> !LosesSign(i, ts)
  {
    var c, t := RegInsn(env, i', pc, r), StepInsn(env, i', pc, vs);
    if IsPush(i.op) {
      PushSigns(r, ts, vs, c.r, t.stack, Ax(Exec(i.op, ts).value));
    } else if i.op.Logical? {
      LogicalSigns(env, i, i', pc, ts, r, vs, falls);
    } else if IsBinary(i'.op) {
      PopSigns(r, ts, vs);
      TopSigns(PopRegs(r), Pop(ts), Pop(vs), c.r, t.stack, if i.op.Bit? then U64 else S64);
    } else if !i.op.CastNop? {
      TopTypes(env, i, i', pc, ts, r, vs);
      TopSigns(r, ts, vs, c.r, t.stack, Ax(Exec(i.op, ts).value));
    }
  }

  // Whole runs

  /** A run on values and the run of the registers beside it, which keep the values. */
  ghost predicate Abreast(env: Env, final: seq<byte>, tr: seq<RState>, gs: seq<GState>)
    requires env.Valid()
  {
    && IsRun(env, final, tr) && IsRegRun(env, final, gs) && |gs| == |tr|
    && forall k :: 0 <= k < |tr| ==> gs[k].pc == tr[k].pc && Represents(gs[k].r, tr[k].stack)
  }

  ghost predicate SignsAt(code: seq<byte>, src: Source, tr: seq<RState>, gs: seq<GState>, k: nat)
    requires k < |tr| == |gs|
  {
    forall v :: Visits(code, src.symtab, INIT, v) && v.pc == tr[k].pc ==> SignsAgree(gs[k].r, v.stack, tr[k].stack)
  }

  ghost predicate LossAt(code: seq<byte>, src: Source, tr: seq<RState>, k: nat)
    requires k < |tr|
  {
    exists v :: Visits(code, src.symtab, INIT, v) && v.pc == tr[k].pc && v.pc < |code| && Decode(code, v.pc).Some?
                && LosesSign(Decode(code, v.pc).value, v.stack)
  }

  /** The turn a run takes at a step, as the validator foresaw it. */
  lemma TurnAt(code: seq<byte>, src: Source, env: Env, tr: seq<RState>, gs: seq<GState>, k: nat)
      returns (v: VState, v': VState, i': Insn, falls: bool)
    requires IsLinked(code, src) && RunsOn(env, code, src) && Abreast(env, FinalCode(code, src), tr, gs) && k + 1 < |tr|
    ensures Visits(code, src.symtab, INIT, v) && v.pc == tr[k].pc && v.pc < |code| && Decode(code, v.pc).Some?
    ensures Visits(code, src.symtab, INIT, v') && v'.pc == tr[k + 1].pc
    ensures var i := Decode(code, v.pc).value;
            && Exec(i.op, v.stack).Some? && v'.stack == TypesAfter(i, v.stack, falls)
            && Turns(env, i, i', tr[k].pc, v.stack, gs[k].r, tr[k].stack, falls)
            && StepInsn(env, i', tr[k].pc, tr[k].stack) == Goto(tr[k + 1].pc, tr[k + 1].stack)
            && RegInsn(env, i', tr[k].pc, gs[k].r) == Go(gs[k + 1].pc, gs[k + 1].r)
  {
    v := RunState(code, src, env, tr, k);
    i' := FinalInsn(code, src, v);
    var i, t := Decode(code, v.pc).value, Step(env, FinalCode(code, src), tr[k]);
    assert t == Goto(tr[k + 1].pc, tr[k + 1].stack);
    assert RegStep(env, FinalCode(code, src), gs[k].pc, gs[k].r) == Go(gs[k + 1].pc, gs[k + 1].r);
    KindStep(env, i, i', v.pc, v.stack, tr[k].stack);
    falls := t.pc == v.pc + Size(i) && Kinds(Exec(i.op, v.stack).value, t.stack);
    v' := NextVisited(code, src, v, t.pc, falls);
  }

  lemma SignStep(code: seq<byte>, src: Source, env: Env, tr: seq<RState>, gs: seq<GState>, k: nat)
    requires IsLinked(code, src) && RunsOn(env, code, src) && Abreast(env, FinalCode(code, src), tr, gs) && k + 1 < |tr|
    requires SignsAt(code, src, tr, gs, k)
    ensures SignsAt(code, src, tr, gs, k + 1) <==> !LossAt(code, src, tr, k)
  {
    var v, v', i', falls := TurnAt(code, src, env, tr, gs, k);
    var i := Decode(code, v.pc).value;
    SignsExactly(env, i, i', tr[k].pc, v.stack, gs[k].r, tr[k].stack, falls);
    forall u | Visits(code, src.symtab, INIT, u) && (u.pc == v.pc || u.pc == v'.pc)
      ensures u == if u.pc == v.pc then v else v'
    {
      VisitedOnce(code, src.symtab, INIT, u, if u.pc == v.pc then v else v');
    }
  }

  lemma {:induction false} SignsUpTo(code: seq<byte>, src: Source, env: Env, tr: seq<RState>, gs: seq<GState>, n: nat)
    requires IsLinked(code, src) && RunsOn(env, code, src) && Abreast(env, FinalCode(code, src), tr, gs) && n < |tr|
    requires forall k :: 0 <= k < n ==> !LossAt(code, src, tr, k)
    ensures SignsAt(code, src, tr, gs, n)
  {
    if n == 0 {
      forall v | Visits(code, src.symtab, INIT, v) && v.pc == 0 ensures v == INIT {
        VisitedOnce(code, src.symtab, INIT, v, INIT);
      }
    } else {
      SignsUpTo(code, src, env, tr, gs, n - 1);
      SignStep(code, src, env, tr, gs, n - 1);
    }
  }

  /** Along a run the integer types found are those the validator computed exactly when no step
      complements an integer, and none negates, or takes the logical complement of, an unsigned
      one. */
  lemma SignsOfRun(code: seq<byte>, src: Source, env: Env, tr: seq<RState>, gs: seq<GState>)
    requires IsLinked(code, src) && RunsOn(env, code, src) && Abreast(env, FinalCode(code, src), tr, gs)
    ensures (forall k :: 0 <= k < |tr| ==> SignsAt(code, src, tr, gs, k))
            <==> (forall k :: 0 <= k < |tr| - 1 ==> !LossAt(code, src, tr, k))
  {
    if forall k :: 0 <= k < |tr| - 1 ==> !LossAt(code, src, tr, k) {
      forall k | 0 <= k < |tr| ensures SignsAt(code, src, tr, gs, k) {
        SignsUpTo(code, src, env, tr, gs, k);
      }
    }
    if forall k :: 0 <= k < |tr| ==> SignsAt(code, src, tr, gs, k) {
      forall k | 0 <= k < |tr| - 1 ensures !LossAt(code, src, tr, k) {
        assert SignsAt(code, src, tr, gs, k) && SignsAt(code, src, tr, gs, k + 1);
        SignStep(code, src, env, tr, gs, k);
      }
    }
  }
}
