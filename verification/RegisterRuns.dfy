/** Whole runs of the register machine: what they keep for every linked program, and when they
    give the outcome of the program as written. */
module RegisterRuns {
  import opened Words
  import opened Opcodes
  import opened Validator
  import opened Fields
  import opened Specializer
  import opened Interpreter
  import opened Linked
  import opened Soundness
  import opened Preservation
  import opened Registers

  // Control and depth, whatever the registers hold

  ghost predicate DepthIs(r: Regs, ts: seq<RegType>) { Shaped(r) && r.top == STACK_EMPTY + |ts| }

  /** Where a turn may lead: on with the validator's next depth, or to a jump target with this one. */
  ghost predicate DepthTurn(i: Insn, pc: nat, ts: seq<RegType>, c: RTurn)
    requires Exec(i.op, ts).Some?
  {
    match c
    case Stop(o) => o != Stuck
    case Go(pc', r') =>
      (pc' == pc + Size(i) && DepthIs(r', Exec(i.op, ts).value)) || (i.op.Logical? && pc' == i.arg && DepthIs(r', ts))
  }

  lemma DepthStep(env: Env, i: Insn, i': Insn, pc: nat, ts: seq<RegType>, r: Regs)
    requires env.Valid() && ContextOk(i, pc, ts) && Exec(i.op, ts).Some? && Rewrites(i, i') && DepthIs(r, ts)
    ensures DepthTurn(i, pc, ts, RegInsn(env, i', pc, r))
  {
    if IsPush(i'.op) {
      if i'.op.LoadRef? {
        ReferenceKind(env, i'.op.r, i'.arg);
      }
    } else if IsTop(i'.op) {
      TopDepth(env, i', pc, r);
    }
  }

  lemma TopDepth(env: Env, i: Insn, pc: nat, r: Regs)
    requires env.Valid() && Shaped(r) && r.top > STACK_EMPTY && IsTop(i.op)
    ensures var c := RegInsn(env, i, pc, r);
            if c.Go? then c.pc == pc + Size(i) && Shaped(c.r) && c.r.top == r.top else c.o != Stuck
  {
    var p := Target(r.e[r.top].u);
    if p.Some? {
      if p.value.Obj? {
        LoadMemKind(if i.op.LoadTyped? then i.op.t else p.value.ot, p.value.mem);
      }
      if i.arg in env.gids {
        GetIndexKind(env, env.gids[i.arg], p.value);
      }
    }
  }

  datatype GState = GState(pc: nat, r: Regs)

  /** A state as the validator saw it, kinds apart: a visited instruction at its depth. */
  ghost predicate AtDepth(code: seq<byte>, src: Source, g: GState, v: VState) {
    && Visits(code, src.symtab, INIT, v) && Accepts(code, src.symtab, v)
    && v.pc == g.pc && DepthIs(g.r, v.stack)
  }

  lemma RegStepSound(code: seq<byte>, src: Source, env: Env, g: GState, v: VState) returns (v': VState)
    requires IsLinked(code, src) && RunsOn(env, code, src) && AtDepth(code, src, g, v)
    ensures var c := RegStep(env, FinalCode(code, src), g.pc, g.r);
            && c != Stop(Stuck)
            && (c.Go? ==> g.pc < c.pc && AtDepth(code, src, GState(c.pc, c.r), v')
                          && VisitCount(code, src.symtab, v') < VisitCount(code, src.symtab, v))
  {
    var i' := FinalInsn(code, src, v);
    v' := v;
    var i := Decode(code, v.pc).value;
    if !IsReturn(i.op) {
      DepthStep(env, i, i', v.pc, v.stack, g.r);
      var c := RegInsn(env, i', g.pc, g.r);
      if c.Go? {
        v' := NextVisited(code, src, v, c.pc, c.pc == v.pc + Size(i) && DepthIs(c.r, Exec(i.op, v.stack).value));
      }
    }
  }

  /** A finite run of the register machine, on any contents of the fresh array. */
  ghost predicate IsRegRun(env: Env, code: seq<byte>, tr: seq<GState>)
    requires env.Valid()
  {
    && |tr| >= 1 && |tr[0].r.e| == STACK_LEN && tr[0] == GState(0, RegInit(tr[0].r.e))
    && forall k :: 0 <= k < |tr| - 1 ==>
         Shaped(tr[k].r) && RegStep(env, code, tr[k].pc, tr[k].r) == Go(tr[k + 1].pc, tr[k + 1].r)
  }

  lemma {:induction false} RegRunState(code: seq<byte>, src: Source, env: Env, tr: seq<GState>, k: nat)
      returns (v: VState)
    requires IsLinked(code, src) && RunsOn(env, code, src) && IsRegRun(env, FinalCode(code, src), tr) && k < |tr|
    ensures AtDepth(code, src, tr[k], v)
    ensures k + VisitCount(code, src.symtab, v) <= VisitCount(code, src.symtab, INIT)
    ensures k > 0 ==> tr[k - 1].pc < tr[k].pc
  {
    if k == 0 {
      v := INIT;
    } else {
      var u := RegRunState(code, src, env, tr, k - 1);
      v := RegStepSound(code, src, env, tr[k - 1], u);
      assert GState(tr[k].pc, tr[k].r) == tr[k];
    }
  }

  /** For every linked program, whatever its operands are and whatever the cache does to them: in
      every run each dispatched offset is one the validator visited, the depth is the validator's,
      offsets grow, and the run is no longer than the instructions visited. */
  lemma RegisterSoundness(code: seq<byte>, src: Source, env: Env, tr: seq<GState>, k: nat)
    requires IsLinked(code, src) && RunsOn(env, code, src) && IsRegRun(env, FinalCode(code, src), tr) && k < |tr|
    ensures exists v :: AtDepth(code, src, tr[k], v)
    ensures RegStep(env, FinalCode(code, src), tr[k].pc, tr[k].r) != Stop(Stuck)
    ensures k > 0 ==> tr[k - 1].pc < tr[k].pc
    ensures k < VisitCount(code, src.symtab, INIT)
  {
    var v := RegRunState(code, src, env, tr, k);
    var _ := RegStepSound(code, src, env, tr[k], v);
  }

  lemma {:induction false} RegRunEnds(code: seq<byte>, src: Source, env: Env, g: GState, v: VState)
    requires IsLinked(code, src) && RunsOn(env, code, src) && AtDepth(code, src, g, v)
    ensures RegRun(env, FinalCode(code, src), g.pc, g.r) != Stuck
    decreases |code| - g.pc
  {
    var v' := RegStepSound(code, src, env, g, v);
    var c := RegStep(env, FinalCode(code, src), g.pc, g.r);
    if c.Go? {
      RegRunEnds(code, src, env, GState(c.pc, c.r), v');
    }
  }

  // Values

  /** Along a run on values the registers keep every stack. */
  ghost predicate KeepsAll(env: Env, code: seq<byte>, tr: seq<RState>, g: GState)
    requires env.Valid()
    decreases |tr|
  {
    tr != [] ==>
      && g.pc == tr[0].pc && Represents(g.r, tr[0].stack)
      && (|tr| > 1 ==> var c := RegStep(env, code, g.pc, g.r); c.Go? && KeepsAll(env, code, tr[1..], GState(c.pc, c.r)))
  }

  /** Along a run on values the cache never does harm. */
  ghost predicate NeverHarmed(env: Env, code: seq<byte>, tr: seq<RState>, g: GState)
    requires env.Valid()
    decreases |tr|
  {
    |tr| > 1 ==>
      && Shaped(g.r) && tr[0].pc < |code| && Decode(code, tr[0].pc).Some?
      && Unharmed(Decode(code, tr[0].pc).value, g.r, tr[0].stack, Goto(tr[1].pc, tr[1].stack))
      && var c := RegStep(env, code, tr[0].pc, g.r); c.Go? ==> NeverHarmed(env, code, tr[1..], GState(c.pc, c.r))
  }

  ghost predicate Moves(env: Env, code: seq<byte>, tr: seq<RState>)
    requires env.Valid()
  {
    forall k :: 0 <= k < |tr| - 1 ==> Step(env, code, tr[k]) == Goto(tr[k + 1].pc, tr[k + 1].stack)
  }

  /** The registers keep the values of a whole run, and so their kinds, exactly when no push of it
      sinks a string or a root that its register does not hold. */
  lemma {:induction false} KeptExactly(env: Env, code: seq<byte>, tr: seq<RState>, g: GState)
    requires env.Valid() && tr != [] && Moves(env, code, tr) && g.pc == tr[0].pc && Represents(g.r, tr[0].stack)
    ensures KeepsAll(env, code, tr, g) <==> NeverHarmed(env, code, tr, g)
    decreases |tr|
  {
    if |tr| > 1 {
      assert Step(env, code, tr[0]) == Goto(tr[1].pc, tr[1].stack);
      var i := Decode(code, tr[0].pc).value;
      StepExactly(env, i, g.pc, g.r, tr[0].stack);
      var c := RegStep(env, code, g.pc, g.r);
      forall k | 0 <= k < |tr[1..]| - 1
        ensures Step(env, code, tr[1..][k]) == Goto(tr[1..][k + 1].pc, tr[1..][k + 1].stack)
      {
        assert tr[1..][k] == tr[k + 1] && tr[1..][k + 1] == tr[k + 2];
      }
      if c.Go? && Follows(c, Goto(tr[1].pc, tr[1].stack)) {
        KeptExactly(env, code, tr[1..], GState(c.pc, c.r));
      }
    }
  }

  /** No push of the program finds, by the validator's types, anything but an integer next to the
      top. */
  ghost predicate PushesOverIntegers(code: seq<byte>, symtab: seq<byte>) {
    forall v :: Visits(code, symtab, INIT, v) && v.pc < |code| && Decode(code, v.pc).Some? ==>
      IsPush(Decode(code, v.pc).value.op) ==> |v.stack| < 2 || IsInt(Bx(v.stack))
  }

  lemma {:induction false} RegistersKeepFrom(code: seq<byte>, src: Source, env: Env, tr: seq<RState>, n: nat, g: GState)
    requires IsLinked(code, src) && RunsOn(env, code, src) && IsRun(env, FinalCode(code, src), tr) && n < |tr|
    requires PushesOverIntegers(code, src.symtab) && g.pc == tr[n].pc && Represents(g.r, tr[n].stack)
    ensures KeepsAll(env, FinalCode(code, src), tr[n..], g)
    decreases |tr| - n
  {
    if n < |tr| - 1 {
      var v := RunState(code, src, env, tr, n);
      var i' := FinalInsn(code, src, v);
      assert Step(env, FinalCode(code, src), tr[n]) == Goto(tr[n + 1].pc, tr[n + 1].stack);
      IntegerSinks(Decode(code, v.pc).value, i', v.stack, g.r, tr[n].stack);
      StepExactly(env, i', g.pc, g.r, tr[n].stack);
      var c := RegStep(env, FinalCode(code, src), g.pc, g.r);
      RegistersKeepFrom(code, src, env, tr, n + 1, GState(c.pc, c.r));
      assert tr[n..][1..] == tr[n + 1..];
    }
  }

  lemma IntegerSinks(i: Insn, i': Insn, ts: seq<RegType>, r: Regs, vs: seq<Value>)
    requires IsPush(i.op) ==> |ts| < 2 || IsInt(Bx(ts))
    requires Kinds(ts, vs) && (if IsReturn(i.op) then i' == i else Rewrites(i, i'))
    ensures IsPush(i'.op) ==> Sinks(r, vs)
  {
    if IsPush(i'.op) && |vs| >= 2 {
      assert KindOk(ts[|vs| - 2], vs[|vs| - 2]);
    }
  }

  /** In every run of a linked program whose pushes the validator sees over integers only, the
      registers keep all values, so that the kinds the validator computed are the kinds found. */
  lemma RegisterKinds(code: seq<byte>, src: Source, env: Env, tr: seq<RState>, e: seq<Cell>)
    requires IsLinked(code, src) && RunsOn(env, code, src) && IsRun(env, FinalCode(code, src), tr) && |e| == STACK_LEN
    requires PushesOverIntegers(code, src.symtab)
    ensures KeepsAll(env, FinalCode(code, src), tr, GState(0, RegInit(e)))
    ensures forall k :: 0 <= k < |tr| ==> Seen(code, src, tr[k])
  {
    RegistersKeepFrom(code, src, env, tr, 0, GState(0, RegInit(e)));
    assert tr[0..] == tr;
    ValidatorSoundness(code, src, env, tr);
  }

  // The static condition

  /** What a caller can check at an instruction, by the types the specializer tracks: no push over
      a string or a root next to the top, and integers where registers' types are read. */
  predicate Settled(i: Insn, es: seq<Entry>) {
    && (IsPush(i.op) && |es| >= 2 ==> IsInt(Bx(es).ty) || (Bx(es).ty == Ptr && Bx(es).load.Object?))
    && (i.op.Return? && |es| >= 1 ==> IsInt(Ax(es).ty))
    && (i.op.Bit? && |es| >= 2 ==> IsInt(Bx(es).ty) && IsInt(Ax(es).ty))
  }

  ghost predicate Cacheable(code: seq<byte>, src: Source)
    requires IsLinked(code, src)
  {
    forall v, s :: Reached(code, src, v, s) && v.pc < |code| && Decode(code, v.pc).Some? ==>
      Settled(Decode(code, v.pc).value, s.stack)
  }

  lemma SettledIsUnharmed(i: Insn, i': Insn, es: seq<Entry>, r: Regs, vs: seq<Value>, t: Turn)
    requires Settled(i, es) && Known(es, vs) && Represents(r, vs)
    requires (IsPush(i'.op) || i'.op.Return? || i'.op.Bit?) ==> i'.op == i.op
    ensures Unharmed(i', r, vs, t)
  {
    if |vs| >= 2 {
      TopTwo(r, vs);
      assert EntryOk(Bx(es), Bx(vs)) && EntryOk(Ax(es), Ax(vs));
    } else if |vs| == 1 {
      assert EntryOk(Ax(es), Ax(vs));
    }
  }

  lemma FollowsStep(code: seq<byte>, src: Source, env: Env, st: RState, v: VState, s: SState, r: Regs)
    requires IsLinked(code, src) && Cacheable(code, src) && Tracked(code, src, st, v, s) && env.Valid()
    requires Represents(r, st.stack) && Step(env, FinalCode(code, src), st) != Halt(Wild)
    ensures Follows(RegStep(env, FinalCode(code, src), st.pc, r), Step(env, FinalCode(code, src), st))
  {
    InsnAt(code, src, v, s);
    var i, i' := Decode(code, v.pc).value, Decode(FinalCode(code, src), v.pc).value;
    FinalKeeps(src, i, i', s);
    SettledIsUnharmed(i, i', s.stack, r, st.stack, StepInsn(env, i', st.pc, st.stack));
    StepExactly(env, i', st.pc, r, st.stack);
  }

  /** From a state that the specializer tracked and the registers keep, both machines end alike,
      unless the one on values leaves the event or meets an operand of another kind. */
  lemma {:induction false} RegistersFollow(code: seq<byte>, src: Source, env: Env, st: RState, v: VState, s: SState,
                                           r: Regs)
    requires IsLinked(code, src) && Specializable(code, src) && Cacheable(code, src) && Tracked(code, src, st, v, s)
    requires env.Valid() && env.fields == src.fields && env.ctx == src.ctx && env.gids == FinalGids(code, src)
    requires Represents(r, st.stack) && Run(env, FinalCode(code, src), st) != Wild
    ensures RegRun(env, FinalCode(code, src), st.pc, r) == Run(env, FinalCode(code, src), st)
    decreases |code| - st.pc
  {
    var v', s' := StepsAgree(code, src, env, st, v, s);
    FollowsStep(code, src, env, st, v, s, r);
    var t := Step(env, FinalCode(code, src), st);
    if t.Goto? {
      ReachedInStep(code, src, v, s);
      RegistersFollow(code, src, env, RState(t.pc, t.stack), v', s', RegStep(env, FinalCode(code, src), st.pc, r).r);
    }
  }

  lemma FinalKeeps(src: Source, i: Insn, i': Insn, s: SState)
    requires if IsReturn(i.op) then i' == i
             else var o := SpecInsn(src, i, s.stack, s.arena); o.Some? && i' == Insn(o.value.op, o.value.arg, i.str)
    ensures (IsPush(i'.op) || i'.op.Return? || i'.op.Bit?) ==> i'.op == i.op
  {
  }

  /** The interpreter as it is, on any event and any contents of its fresh array: a linked program
      that meets both static conditions accepts, rejects or fails as it does when it is read as
      written, wherever that reading stays inside the event. */
  lemma RegistersPreserveMeaning(code: seq<byte>, src: Source, env: Env, e: seq<Cell>)
    requires IsLinked(code, src) && Specializable(code, src) && Cacheable(code, src) && |e| == STACK_LEN
    requires env.Valid() && env.fields == src.fields && env.ctx == src.ctx && env.gids == FinalGids(code, src)
    requires RefRun(env, code, src.symtab, RState(0, [])) != Wild
    ensures RegRun(env, FinalCode(code, src), 0, RegInit(e)) == RefRun(env, code, src.symtab, RState(0, []))
  {
    SpecializationPreservesMeaning(code, src, env);
    RegistersFollow(code, src, env, RState(0, []), INIT, Start(code), RegInit(e));
  }
}
