/** The runs of the leaves and of the operators of a linked expression. */
module ExpressionSteps {
  import opened Words
  import opened Opcodes
  import opened Validator
  import opened Fields
  import opened Specializer
  import opened StringCompare
  import opened Interpreter
  import opened Linked
  import opened Programs
  import opened Registers
  import opened Comparisons
  import opened Expressions
  import opened ExpressionLinks
  import opened ExpressionValues
  import Glob

  // One instruction

  /** The cache does no harm. */
  predicate Calm(i: Insn, vs: seq<Value>) {
    && (IsPush(i.op) && |vs| >= 2 ==> Bx(vs).VInt?)
    && (i.op.Return? && |vs| >= 1 ==> Ax(vs).VInt?)
    && (i.op.Bit? && |vs| >= 2 ==> Bx(vs).VInt? && Ax(vs).VInt?)
  }

  // Where instructions stand

  ghost predicate DecodesTo(code: seq<byte>, pc: nat, d: Option<Insn>)
    requires pc < |code|
  {
    Decode(code, pc) == d
  }

  ghost predicate Held(code: seq<byte>, pc: nat, i: Insn) {
    pc < |code| && forall d :: DecodesTo(code, pc, d) ==> d == Some(i)
  }

  lemma HeldStands(code: seq<byte>, pc: nat, i: Insn)
    ensures Held(code, pc, i) <==> Stands(code, pc, i)
  {
    assert pc < |code| ==> DecodesTo(code, pc, Decode(code, pc));
  }

  ghost predicate Placed(code: seq<byte>, pc: nat, ins: seq<Insn>)
    decreases |ins|
  {
    ins == [] || (Held(code, pc, ins[0]) && Placed(code, pc + Size(ins[0]), ins[1..]))
  }

  function Length(ins: seq<Insn>): nat { if ins == [] then 0 else Size(ins[0]) + Length(ins[1..]) }

  lemma PlacedCons(code: seq<byte>, pc: nat, i: Insn, ins: seq<Insn>, rest: seq<Insn>, next: nat)
    requires ins != [] && ins[0] == i && ins[1..] == rest && next == pc + Size(i)
    ensures Placed(code, pc, ins) <==> Held(code, pc, i) && Placed(code, next, rest)
  {
  }

  lemma {:induction false} PlacedAppend(code: seq<byte>, pc: nat, a: seq<Insn>, b: seq<Insn>, n: nat)
    requires n == Length(a)
    ensures Placed(code, pc, a + b) <==> Placed(code, pc, a) && Placed(code, pc + n, b)
    decreases |a|
  {
    if a == [] {
      assert a + b == b;
    } else {
      var next, rest := pc + Size(a[0]), a[1..];
      assert (a + b)[1..] == rest + b;
      PlacedCons(code, pc, a[0], a, rest, next);
      PlacedCons(code, pc, a[0], a + b, rest + b, next);
      PlacedAppend(code, next, rest, b, n - Size(a[0]));
    }
  }

  lemma {:induction false} LengthAppend(a: seq<Insn>, b: seq<Insn>)
    ensures Length(a + b) == Length(a) + Length(b)
    decreases |a|
  {
    if a == [] {
      assert a + b == b;
    } else {
      assert (a + b)[0] == a[0] && (a + b)[1..] == a[1..] + b;
      LengthAppend(a[1..], b);
    }
  }

  lemma PlacedOne(code: seq<byte>, pc: nat, i: Insn)
    requires Placed(code, pc, [i])
    ensures Stands(code, pc, i)
  {
    assert [i][0] == i;
    HeldStands(code, pc, i);
  }

  // What a turn does

  ghost predicate TurnIs(env: Env, i: Insn, pc: nat, vs: seq<Value>, t: Turn)
    requires env.Valid()
  {
    StepInsn(env, i, pc, vs) == t
  }

  ghost predicate Takes(env: Env, i: Insn, pc: nat, vs: seq<Value>, t: Turn)
    requires env.Valid()
  {
    forall t' :: TurnIs(env, i, pc, vs, t') ==> t' == t
  }

  lemma TurnTaken(env: Env, i: Insn, pc: nat, vs: seq<Value>, t: Turn)
    requires env.Valid()
    ensures Takes(env, i, pc, vs, t) <==> StepInsn(env, i, pc, vs) == t
  {
    assert TurnIs(env, i, pc, vs, StepInsn(env, i, pc, vs));
  }

  // Outcomes

  ghost predicate Ends(env: Env, code: seq<byte>, pc: nat, r: Regs, o: Outcome)
    requires env.Valid() && Shaped(r)
  {
    RegRun(env, code, pc, r) == o
  }

  /** The run from the one place is the run from the other. */
  ghost predicate Joins(env: Env, code: seq<byte>, pc: nat, r: Regs, pc': nat, r': Regs)
    requires env.Valid() && Shaped(r) && Shaped(r')
  {
    forall o :: Ends(env, code, pc, r, o) ==> Ends(env, code, pc', r', o)
  }

  /** The run ends so. */
  ghost predicate Fails(env: Env, code: seq<byte>, pc: nat, r: Regs, o: Outcome)
    requires env.Valid() && Shaped(r)
  {
    forall o' :: Ends(env, code, pc, r, o') ==> o' == o
  }

  lemma JoinsBoth(env: Env, code: seq<byte>, pc: nat, r: Regs, pc': nat, r': Regs, pc'': nat, r'': Regs)
    requires env.Valid() && Shaped(r) && Shaped(r') && Shaped(r'')
    requires Joins(env, code, pc, r, pc', r') && Joins(env, code, pc', r', pc'', r'')
    ensures Joins(env, code, pc, r, pc'', r'')
  {
  }

  lemma JoinsFails(env: Env, code: seq<byte>, pc: nat, r: Regs, pc': nat, r': Regs, o: Outcome)
    requires env.Valid() && Shaped(r) && Shaped(r')
    requires Joins(env, code, pc, r, pc', r') && Fails(env, code, pc', r', o)
    ensures Fails(env, code, pc, r, o)
  {
  }

  lemma Turned(env: Env, code: seq<byte>, pc: nat, i: Insn, r: Regs, vs: seq<Value>, vs': seq<Value>, next: nat)
      returns (r': Regs)
    requires env.Valid() && Placed(code, pc, [i]) && Represents(r, vs) && Calm(i, vs)
    requires Takes(env, i, pc, vs, Goto(next, vs')) && pc < next
    ensures Represents(r', vs') && Joins(env, code, pc, r, next, r')
  {
    PlacedOne(code, pc, i);
    TurnTaken(env, i, pc, vs, Goto(next, vs'));
    StepExactly(env, i, pc, r, vs);
    assert RegStep(env, code, pc, r) == RegInsn(env, i, pc, r);
    r' := RegInsn(env, i, pc, r).r;
    assert RegRun(env, code, pc, r) == RegRun(env, code, next, r');
  }

  lemma Halted(env: Env, code: seq<byte>, pc: nat, i: Insn, r: Regs, vs: seq<Value>, o: Outcome)
    requires env.Valid() && Placed(code, pc, [i]) && Represents(r, vs) && Calm(i, vs)
    requires Takes(env, i, pc, vs, Halt(o)) && o != Wild
    ensures Fails(env, code, pc, r, o)
  {
    PlacedOne(code, pc, i);
    TurnTaken(env, i, pc, vs, Halt(o));
    StepExactly(env, i, pc, r, vs);
    assert RegStep(env, code, pc, r) == RegInsn(env, i, pc, r);
    assert RegRun(env, code, pc, r) == o;
  }

  /** The registers go on with a value above some others, or the run ends. */
  ghost predicate Yields(env: Env, code: seq<byte>, pc: nat, r: Regs, vs: seq<Value>, x: Res<Value>, next: nat,
                         r': Regs)
    requires env.Valid() && Shaped(r)
  {
    if x.Ok? then Represents(r', vs + [x.value]) && Joins(env, code, pc, r, next, r') else Fails(env, code, pc, r, x.o)
  }

  lemma JoinsYields(env: Env, code: seq<byte>, pc: nat, r: Regs, pc': nat, r': Regs, vs: seq<Value>, x: Res<Value>,
                    next: nat, r'': Regs)
    requires env.Valid() && Shaped(r) && Shaped(r')
    requires Joins(env, code, pc, r, pc', r') && Yields(env, code, pc', r', vs, x, next, r'')
    ensures Yields(env, code, pc, r, vs, x, next, r'')
  {
    if x.Ok? {
      JoinsBoth(env, code, pc, r, pc', r', next, r'');
    } else {
      JoinsFails(env, code, pc, r, pc', r', x.o);
    }
  }

  function TurnOf(vs: seq<Value>, x: Res<Value>, next: nat): Turn {
    if x.Ok? then Goto(next, vs + [x.value]) else Halt(x.o)
  }

  /** An instruction that puts a value above some others, or fails. */
  lemma TurnYields(env: Env, code: seq<byte>, pc: nat, i: Insn, r: Regs, st: seq<Value>, vs: seq<Value>, x: Res<Value>,
                   next: nat) returns (r': Regs)
    requires env.Valid() && Placed(code, pc, [i]) && Represents(r, st) && Calm(i, st)
    requires Takes(env, i, pc, st, TurnOf(vs, x, next)) && pc < next && x != Bad(Wild)
    ensures Yields(env, code, pc, r, vs, x, next, r')
  {
    r' := r;
    if x.Ok? {
      r' := Turned(env, code, pc, i, r, st, vs + [x.value], next);
    } else {
      Halted(env, code, pc, i, r, st, x.o);
    }
  }

  lemma TopTakes(env: Env, i: Insn, pc: nat, vs: seq<Value>, a: Value, x: Res<Value>)
    requires env.Valid() && IsTop(i.op) && TopResult(env, i, a) == x
    ensures Takes(env, i, pc, vs + [a], TurnOf(vs, x, pc + Size(i)))
  {
    var st := vs + [a];
    assert StepInsn(env, i, pc, st) == Replaced(st, x, pc + Size(i));
    assert x.Ok? ==> SetAx(st, x.value) == vs + [x.value];
    TurnTaken(env, i, pc, st, TurnOf(vs, x, pc + Size(i)));
  }

  // Lengths

  lemma {:induction false} OutsLength(src: Source, e: Expr, pc: nat, at: nat, outs: seq<Insn>, n: nat)
    requires outs == Outs(src, e, pc, at) && n == Len(e)
    ensures Length(outs) == n
    decreases e, 1
  {
    match e
    case Atom(x) =>
      if (x.Named? || x.Element?) && LeafType(src, x).Some? {
        LoadsAreBare(src, x);
      }
      LeafLength(x, at, if LeafType(src, x).Some? then LeafType(src, x).value.1 else LoadField, outs);
    case Compare(c, l, r) => CompareLength(src, e, pc, at, outs, n);
    case Combine(_, _, _) => CombineLength(src, e, pc, at, outs, n);
    case Logic(_, _, _) => LogicLength(src, e, pc, at, outs, n);
    case Apply(u, f) => SingleLength(src, f, Simple(UnaryS64(u)), pc, at, Outs(src, f, pc, at));
    case Invert(f) => SingleLength(src, f, Simple(BitNot), pc, at, Outs(src, f, pc, at));
    case Cast(f) => SingleLength(src, f, Simple(CastNop), pc, at, Outs(src, f, pc, at));
  }

  lemma {:induction false} CompareLength(src: Source, e: Expr, pc: nat, at: nat, outs: seq<Insn>, n: nat)
    requires e.Compare? && outs == Outs(src, e, pc, at) && n == Len(e)
    ensures Length(outs) == n
    decreases e, 0, 1
  {
    var i := Compared(src, e.c, e.l, e.r);
    ComparedIsBare(src, e.c, e.l, e.r, i);
    PairLength(src, e, i, pc, pc + Len(e.l), at, Outs(src, e.l, pc, at), Outs(src, e.r, pc + Len(e.l), After(e.l, at)));
  }

  lemma {:induction false} CombineLength(src: Source, e: Expr, pc: nat, at: nat, outs: seq<Insn>, n: nat)
    requires e.Combine? && outs == Outs(src, e, pc, at) && n == Len(e)
    ensures Length(outs) == n
    decreases e, 0, 1
  {
    PairLength(src, e, Simple(Bit(e.b)), pc, pc + Len(e.l), at, Outs(src, e.l, pc, at),
               Outs(src, e.r, pc + Len(e.l), After(e.l, at)));
  }

  lemma {:induction false} LogicLength(src: Source, e: Expr, pc: nat, at: nat, outs: seq<Insn>, n: nat)
    requires e.Logic? && outs == Outs(src, e, pc, at) && n == Len(e)
    ensures Length(outs) == n
    decreases e, 0, 1
  {
    PairLength(src, e, Skip(e.isOr, e.l, e.r, pc), pc, pc + Len(e.l) + 3, at, Outs(src, e.l, pc, at),
               Outs(src, e.r, pc + Len(e.l) + 3, After(e.l, at)));
  }

  lemma {:induction false} SingleLength(src: Source, f: Expr, i: Insn, pc: nat, at: nat, a: seq<Insn>)
    requires a == Outs(src, f, pc, at)
    ensures Length(a + [i]) == Len(f) + Size(i)
    decreases f, 2
  {
    OutsLength(src, f, pc, at, a, Len(f));
    LengthAppend(a, [i]);
  }

  lemma {:induction false} PairLength(src: Source, e: Expr, i: Insn, pc: nat, pc': nat, at: nat, a: seq<Insn>,
                                      b: seq<Insn>)
    requires e.Compare? || e.Combine? || e.Logic?
    requires a == Outs(src, e.l, pc, at) && b == Outs(src, e.r, pc', After(e.l, at))
    ensures Length(a + (b + [i])) == Length(a + ([i] + b)) == Len(e.l) + Len(e.r) + Size(i)
    decreases e, 0, 0
  {
    OutsLength(src, e.l, pc, at, a, Len(e.l));
    OutsLength(src, e.r, pc', After(e.l, at), b, Len(e.r));
    LengthAppend(b, [i]);
    LengthAppend([i], b);
    LengthAppend(a, b + [i]);
    LengthAppend(a, [i] + b);
  }

  lemma LengthThree(a: Insn, b: Insn, c: Insn)
    ensures Length([a, b, c]) == Size(a) + Size(b) + Size(c)
  {
    assert [a, b, c][1..] == [b, c] && [b, c][1..] == [c];
    LengthOne(c, [c]);
    assert Length([b, c]) == Size(b) + Size(c);
  }

  lemma LengthFour(a: Insn, b: Insn, c: Insn, d: Insn)
    ensures Length([a, b, c, d]) == Size(a) + Size(b) + Size(c) + Size(d)
  {
    assert [a, b, c, d][1..] == [b, c, d];
    LengthThree(b, c, d);
  }

  lemma NamedLength(x: Leaf, at: nat, op: Op, outs: seq<Insn>)
    requires x.Named? && Size(Simple(op)) == 1 && outs == LeafAccess(x, at, op)
    ensures Length(outs) == 5
  {
    assert outs == [outs[0], outs[1], outs[2]];
    LengthThree(outs[0], outs[1], outs[2]);
  }

  lemma ElementLength(x: Leaf, at: nat, op: Op, outs: seq<Insn>)
    requires x.Element? && Size(Simple(op)) == 1 && outs == LeafAccess(x, at, op)
    ensures Length(outs) == 14
  {
    assert outs == [outs[0], outs[1], outs[2], outs[3]];
    LengthFour(outs[0], outs[1], outs[2], outs[3]);
  }

  lemma LeafLength(x: Leaf, at: nat, op: Op, outs: seq<Insn>)
    requires (x.Named? || x.Element? ==> Size(Simple(op)) == 1) && outs == LeafAccess(x, at, op)
    ensures Length(outs) == LeafLen(x)
  {
    match x
    case Named(_, _) => NamedLength(x, at, op, outs);
    case Element(_, _) => ElementLength(x, at, op, outs);
    case _ => LengthOne(outs[0], outs);
  }

  lemma LengthOne(i: Insn, ins: seq<Insn>)
    requires ins == [i]
    ensures Length(ins) == Size(i)
  {
    assert ins[1..] == [];
  }

  lemma LoadsAreBare(src: Source, x: Leaf)
    requires (x.Named? || x.Element?) && LeafType(src, x).Some?
    ensures Size(Simple(LeafType(src, x).value.1)) == 1
  {
  }

  lemma ComparedIsBare(src: Source, c: CmpOp, l: Expr, r: Expr, i: Insn)
    requires i == Compared(src, c, l, r)
    ensures Size(i) == 1
  {
  }

  // Leaves

  ghost predicate LeafFurnished(gids: map<nat, Gid>, src: Source, x: Leaf, at: nat) {
    match x
    case Named(ctx, sym) => Denotes(src, ctx, sym) ==> at in gids && gids[at] == NameGid(src, ctx, sym)
    case Element(sym, index) =>
      Denotes(src, false, sym) && ElementOf(DeclaredAs(src, false, sym).value, index).Some? ==>
        && at in gids && gids[at] == NameGid(src, false, sym)
        && at + GID_SIZE in gids
        && gids[at + GID_SIZE] == ElemGid(ElementOf(DeclaredAs(src, false, sym).value, index).value, index)
    case _ => true
  }

  /** The event is one of the source, and the lookup data is what was stored. */
  ghost predicate Serves(env: Env, src: Source) { env.Valid() && env.fields == src.fields && env.ctx == src.ctx }

  function RootOf(ctx: bool): Value { VPtr(if ctx then ContextRoot else PayloadRoot) }

  /** A root, and an access from it. */
  lemma RootYields(env: Env, code: seq<byte>, pc: nat, root: Insn, ctx: bool, r: Regs, vs: seq<Value>)
      returns (r': Regs)
    requires env.Valid() && Placed(code, pc, [root]) && root == Simple(if ctx then GetContextRoot else GetPayloadRoot)
    requires Represents(r, vs) && |vs| < CAPACITY && (|vs| >= 2 ==> Bx(vs).VInt?)
    ensures Represents(r', vs + [RootOf(ctx)]) && Joins(env, code, pc, r, pc + 1, r')
  {
    TurnTaken(env, root, pc, vs, TurnOf(vs, Ok(RootOf(ctx)), pc + 1));
    r' := TurnYields(env, code, pc, root, r, vs, vs, Ok(RootOf(ctx)), pc + 1);
  }

  /** Two replacements of the top, one after the other. */
  lemma BothYield(env: Env, code: seq<byte>, pc: nat, i: Insn, j: Insn, r: Regs, vs: seq<Value>, a: Value,
                  p: Res<Value>, x: Res<Value>, mid: nat, next: nat) returns (r': Regs)
    requires env.Valid() && Placed(code, pc, [i]) && Placed(code, mid, [j]) && Represents(r, vs + [a])
    requires IsTop(i.op) && IsTop(j.op) && pc < mid < next && x != Bad(Wild)
    requires Takes(env, i, pc, vs + [a], TurnOf(vs, p, mid))
    requires if p.Ok? then Takes(env, j, mid, vs + [p.value], TurnOf(vs, x, next)) else x == p
    ensures Yields(env, code, pc, r, vs, x, next, r')
  {
    var m := TurnYields(env, code, pc, i, r, vs + [a], vs, p, mid);
    r' := m;
    if p.Ok? {
      r' := TurnYields(env, code, mid, j, m, vs + [p.value], vs, x, next);
      JoinsYields(env, code, pc, r, mid, m, vs, x, next, r');
    }
  }

  lemma PlacedNext(code: seq<byte>, pc: nat, i: Insn, rest: seq<Insn>, n: nat)
    requires Placed(code, pc, [i] + rest) && n == pc + Size(i)
    ensures Placed(code, pc, [i]) && Placed(code, n, rest)
  {
    LengthOne(i, [i]);
    PlacedAppend(code, pc, [i], rest, Size(i));
  }

  lemma PlacedThree(code: seq<byte>, pc: nat, outs: seq<Insn>, n: nat, m: nat)
    requires |outs| == 3 && Placed(code, pc, outs) && n == pc + Size(outs[0]) && m == n + Size(outs[1])
    ensures Placed(code, pc, [outs[0]]) && Placed(code, n, [outs[1]]) && Placed(code, m, [outs[2]])
  {
    assert outs == [outs[0]] + ([outs[1]] + [outs[2]]);
    PlacedNext(code, pc, outs[0], [outs[1]] + [outs[2]], n);
    PlacedNext(code, n, outs[1], [outs[2]], m);
  }

  lemma PlacedFour(code: seq<byte>, pc: nat, outs: seq<Insn>, n: nat, m: nat, k: nat)
    requires |outs| == 4 && Placed(code, pc, outs)
    requires n == pc + Size(outs[0]) && m == n + Size(outs[1]) && k == m + Size(outs[2])
    ensures Placed(code, pc, [outs[0]]) && Placed(code, n, [outs[1]]) && Placed(code, m, [outs[2]])
    ensures Placed(code, k, [outs[3]])
  {
    var rest := outs[1..];
    assert outs == [outs[0]] + rest;
    PlacedNext(code, pc, outs[0], rest, n);
    PlacedThree(code, n, rest, m, k);
  }

  // Names

  /** The pointer to what a name denotes. */
  function NamePointer(env: Env, src: Source, ctx: bool, sym: nat): Res<Value>
    requires Serves(env, src) && Denotes(src, ctx, sym)
  {
    var name, ty := SymbolAt(src.symtab, sym).value, DeclaredAs(src, ctx, sym).value;
    if ctx then ContextObj(env, ContextIndexFrom(src.ctx, name, 0).value)
    else
      LookupIsLookup(src.fields, name, 0);
      PayloadObj(Some(env.slots[Lookup(src.fields, name).value.0]), ObjTypeOf(ty, false).value, Some(ty))
  }

  lemma NameTakes(env: Env, src: Source, ctx: bool, sym: nat, i: Insn, pc: nat, vs: seq<Value>)
    requires Serves(env, src) && Denotes(src, ctx, sym) && i == Insn(GetIndexU16, i.arg, [])
    requires i.arg in env.gids && env.gids[i.arg] == NameGid(src, ctx, sym)
    ensures Takes(env, i, pc, vs + [RootOf(ctx)], TurnOf(vs, NamePointer(env, src, ctx, sym), pc + 3))
  {
    var name := SymbolAt(src.symtab, sym).value;
    if !ctx {
      LookupIsLookup(src.fields, name, 0);
      SlotAtOffset(env.fields, env.slots, Lookup(src.fields, name).value.0);
    }
    assert TopResult(env, i, RootOf(ctx)) == NamePointer(env, src, ctx, sym);
    TopTakes(env, i, pc, vs, RootOf(ctx), NamePointer(env, src, ctx, sym));
  }

  lemma FieldLoads(env: Env, ty: FieldType, slot: Slot, t: RegType, op: Op, ot: ObjType)
    requires env.Valid() && LoadedAs(ty, false) == Some((t, op)) && ObjTypeOf(ty, false) == Some(ot)
    ensures var p, x := PayloadObj(Some(slot), ot, Some(ty)), FieldValue(ty, slot);
            && (if p.Ok? then TopResult(env, Simple(op), p.value) == x else x == p)
            && (x.Ok? ==> OfType(t, x.value))
  {
  }

  lemma ContextLoads(env: Env, k: nat, t: RegType, op: Op)
    requires env.Valid() && k < |env.ctx| && LoadedAs(env.ctx[k].ty, true) == Some((t, op))
    ensures var p, x := ContextObj(env, k), ContextValue(env.ctx[k].ty, env.ctxVals[k]);
            && (if p.Ok? then TopResult(env, Simple(op), p.value) == x else x == p)
            && (x.Ok? ==> OfType(t, x.value))
  {
  }

  /** Loading through the pointer gives the value of the name. */
  lemma NameLoads(env: Env, src: Source, ctx: bool, sym: nat, t: RegType, op: Op)
    requires Serves(env, src) && Denotes(src, ctx, sym)
    requires LoadedAs(DeclaredAs(src, ctx, sym).value, ctx) == Some((t, op))
    ensures var p, x := NamePointer(env, src, ctx, sym), NameValue(env, src.symtab, ctx, sym);
            && (if p.Ok? then TopResult(env, Simple(op), p.value) == x else x == p)
            && (x.Ok? ==> OfType(t, x.value))
  {
    var name, ty := SymbolAt(src.symtab, sym).value, DeclaredAs(src, ctx, sym).value;
    if ctx {
      ContextLoads(env, ContextIndexFrom(src.ctx, name, 0).value, t, op);
    } else {
      LookupIsLookup(src.fields, name, 0);
      FieldLoads(env, ty, env.slots[Lookup(src.fields, name).value.0], t, op, ObjTypeOf(ty, false).value);
    }
  }

  lemma NamedYields(env: Env, code: seq<byte>, pc: nat, src: Source, ctx: bool, sym: nat, r: Regs, vs: seq<Value>,
                    v: Res<Value>, root: Insn, i: Insn, j: Insn, t: RegType) returns (r': Regs)
    requires Serves(env, src) && Denotes(src, ctx, sym) && i == Insn(GetIndexU16, i.arg, []) && j == Simple(j.op)
    requires LoadedAs(DeclaredAs(src, ctx, sym).value, ctx) == Some((t, j.op)) && IsTop(j.op)
    requires i.arg in env.gids && env.gids[i.arg] == NameGid(src, ctx, sym)
    requires root == Simple(if ctx then GetContextRoot else GetPayloadRoot)
    requires Placed(code, pc, [root]) && Placed(code, pc + 1, [i]) && Placed(code, pc + 4, [j])
    requires Represents(r, vs) && |vs| < CAPACITY && (|vs| >= 2 ==> Bx(vs).VInt?)
    requires v == NameValue(env, src.symtab, ctx, sym) && v != Bad(Wild)
    ensures Yields(env, code, pc, r, vs, v, pc + 5, r')
    ensures v.Ok? ==> OfType(t, v.value)
  {
    var m := RootYields(env, code, pc, root, ctx, r, vs);
    var p := NamePointer(env, src, ctx, sym);
    NameTakes(env, src, ctx, sym, i, pc + 1, vs);
    NameLoads(env, src, ctx, sym, t, j.op);
    if p.Ok? {
      TopTakes(env, j, pc + 4, vs, p.value, v);
    }
    r' := BothYield(env, code, pc + 1, i, j, m, vs, RootOf(ctx), p, v, pc + 4, pc + 5);
    JoinsYields(env, code, pc, r, pc + 1, m, vs, v, pc + 5, r');
  }

  // Elements

  /** The pointer to an element. */
  function ElementPointer(ty: FieldType, e: Elem, index: nat, slot: Slot): Res<Value>
    requires Bytewise(e)
  {
    var off := Word(index * (e.size / 8));
    if !slot.SeqSlot? then Bad(Wild)
    else if ty.Sequence? && off >= e.size * slot.len then Bad(Error)
    else Ok(VPtr(Obj(ElementType(e), ElemMem(slot.data, off), None)))
  }

  lemma IndexPoints(env: Env, ty: FieldType, e: Elem, index: nat, slot: Slot, i: Insn, ot: ObjType)
    requires env.Valid() && ElementOf(ty, index) == Some(e) && ObjTypeOf(ty, false) == Some(ot)
    requires i == Insn(GetIndexU64, i.arg, []) && i.arg in env.gids && env.gids[i.arg] == ElemGid(e, index)
    ensures PayloadObj(Some(slot), ot, Some(ty)) == Ok(VPtr(Obj(ot, SlotMem(slot), Some(ty))))
    ensures TopResult(env, i, VPtr(Obj(ot, SlotMem(slot), Some(ty)))) == ElementPointer(ty, e, index, slot)
  {
    assert ElemGid(e, index) == Gid(Word(index * (e.size / 8)), 0, ElementType(e), e.size, None);
  }

  lemma ElementLoads(env: Env, ty: FieldType, e: Elem, index: nat, slot: Slot)
    requires env.Valid() && Bytewise(e)
    ensures var p, x := ElementPointer(ty, e, index, slot), ElementValue(ty, e, index, slot);
            && (if p.Ok? then TopResult(env, Simple(LoadTyped(ElementType(e))), p.value) == x else x == p)
            && (x.Ok? ==> x.value.VInt?)
  {
    assert ElemWidth(ElementType(e)) == e.size / 8 && IsSignedElem(ElementType(e)) == e.signed;
  }

  /** An index into what a pointer leads to, and the load. */
  lemma IndexYields(env: Env, code: seq<byte>, pc: nat, k: Insn, j: Insn, ty: FieldType, e: Elem, index: nat,
                    slot: Slot, ot: ObjType, r: Regs, vs: seq<Value>, v: Res<Value>) returns (r': Regs)
    requires env.Valid() && ElementOf(ty, index) == Some(e) && ObjTypeOf(ty, false) == Some(ot)
    requires k == Insn(GetIndexU64, k.arg, []) && k.arg in env.gids && env.gids[k.arg] == ElemGid(e, index)
    requires j == Simple(LoadTyped(ElementType(e))) && Placed(code, pc, [k]) && Placed(code, pc + 9, [j])
    requires Represents(r, vs + [VPtr(Obj(ot, SlotMem(slot), Some(ty)))])
    requires v == ElementValue(ty, e, index, slot) && v != Bad(Wild)
    ensures Yields(env, code, pc, r, vs, v, pc + 10, r') && (v.Ok? ==> v.value.VInt?)
  {
    var a, p := VPtr(Obj(ot, SlotMem(slot), Some(ty))), ElementPointer(ty, e, index, slot);
    IndexPoints(env, ty, e, index, slot, k, ot);
    TopTakes(env, k, pc, vs, a, p);
    ElementLoads(env, ty, e, index, slot);
    if p.Ok? {
      TopTakes(env, j, pc + 9, vs, p.value, v);
    }
    r' := BothYield(env, code, pc, k, j, r, vs, a, p, v, pc + 9, pc + 10);
  }

  lemma ElementYields(env: Env, code: seq<byte>, pc: nat, src: Source, x: Leaf, at: nat, r: Regs, vs: seq<Value>,
                      v: Res<Value>, outs: seq<Insn>, t: RegType, op: Op) returns (r': Regs)
    requires Serves(env, src) && x.Element? && LeafType(src, x) == Some((t, op)) && LeafFurnished(env.gids, src, x, at)
    requires outs == LeafAccess(x, at, op)
    requires Placed(code, pc, [outs[0]]) && Placed(code, pc + 1, [outs[1]])
    requires Placed(code, pc + 4, [outs[2]]) && Placed(code, pc + 13, [outs[3]])
    requires Represents(r, vs) && |vs| < CAPACITY && (|vs| >= 2 ==> Bx(vs).VInt?)
    requires v == LeafValue(env, src.symtab, x) && v != Bad(Wild)
    ensures Yields(env, code, pc, r, vs, v, pc + 14, r')
    ensures v.Ok? ==> OfType(t, v.value)
  {
    var name, ty := SymbolAt(src.symtab, x.sym).value, DeclaredAs(src, false, x.sym).value;
    LookupIsLookup(src.fields, name, 0);
    var slot, e := env.slots[Lookup(src.fields, name).value.0], ElementOf(ty, x.index).value;
    var ot := ObjTypeOf(ty, false).value;
    var m := RootYields(env, code, pc, outs[0], false, r, vs);
    var p := NamePointer(env, src, false, x.sym);
    NameTakes(env, src, false, x.sym, outs[1], pc + 1, vs);
    IndexPoints(env, ty, e, x.index, slot, outs[2], ot);
    var n := TurnYields(env, code, pc + 1, outs[1], m, vs + [RootOf(false)], vs, p, pc + 4);
    r' := IndexYields(env, code, pc + 4, outs[2], outs[3], ty, e, x.index, slot, ot, n, vs, v);
    JoinsYields(env, code, pc + 1, m, pc + 4, n, vs, v, pc + 14, r');
    JoinsYields(env, code, pc, r, pc + 1, m, vs, v, pc + 14, r');
  }

  // All leaves

  lemma PushTakes(env: Env, symtab: seq<byte>, x: Leaf, i: Insn, pc: nat, vs: seq<Value>, v: Res<Value>)
    requires env.Valid() && !x.Named? && !x.Element? && LeafCode(x) == [i] && |vs| < CAPACITY
    requires v == LeafValue(env, symtab, x)
    ensures Takes(env, i, pc, vs, TurnOf(vs, v, pc + LeafLen(x)))
  {
    assert [i][0] == i;
    assert StepInsn(env, i, pc, vs) == Pushed(vs, v, pc + LeafLen(x));
    TurnTaken(env, i, pc, vs, TurnOf(vs, v, pc + LeafLen(x)));
  }

  lemma PushTyped(env: Env, src: Source, x: Leaf, i: Insn, v: Res<Value>, t: RegType)
    requires env.Valid() && !x.Named? && !x.Element? && LeafCode(x) == [i] && t == LeafType(src, x).value.0
    requires v == LeafValue(env, src.symtab, x)
    ensures IsPush(i.op) && (v.Ok? ==> OfType(t, v.value))
  {
    assert [i][0] == i;
  }

  lemma LeafYields(env: Env, code: seq<byte>, pc: nat, src: Source, x: Leaf, at: nat, r: Regs, vs: seq<Value>,
                   v: Res<Value>, outs: seq<Insn>, next: nat, t: RegType, op: Op) returns (r': Regs)
    requires Serves(env, src) && LeafType(src, x) == Some((t, op)) && LeafFurnished(env.gids, src, x, at)
    requires outs == LeafAccess(x, at, op) && Placed(code, pc, outs)
    requires Represents(r, vs) && |vs| < CAPACITY && (|vs| >= 2 ==> Bx(vs).VInt?)
    requires v == LeafValue(env, src.symtab, x) && v != Bad(Wild) && next == pc + LeafLen(x)
    ensures Yields(env, code, pc, r, vs, v, next, r')
    ensures v.Ok? ==> OfType(t, v.value)
  {
    LeafPlaced(code, pc, x, at, op, outs);
    if x.Named? {
      LoadedDenotes(DeclaredAs(src, x.ctx, x.sym).value, x.ctx);
      r' := NamedYields(env, code, pc, src, x.ctx, x.sym, r, vs, v, outs[0], outs[1], outs[2], t);
    } else if x.Element? {
      r' := ElementYields(env, code, pc, src, x, at, r, vs, v, outs, t, op);
    } else {
      r' := PushYields(env, code, pc, src, x, r, vs, v, outs[0], next, t);
    }
  }

  lemma PushYields(env: Env, code: seq<byte>, pc: nat, src: Source, x: Leaf, r: Regs, vs: seq<Value>, v: Res<Value>,
                   i: Insn, next: nat, t: RegType) returns (r': Regs)
    requires env.Valid() && !x.Named? && !x.Element? && LeafCode(x) == [i] && Placed(code, pc, [i])
    requires Represents(r, vs) && |vs| < CAPACITY && (|vs| >= 2 ==> Bx(vs).VInt?)
    requires v == LeafValue(env, src.symtab, x) && v != Bad(Wild) && next == pc + LeafLen(x)
    requires t == LeafType(src, x).value.0
    ensures Yields(env, code, pc, r, vs, v, next, r') && (v.Ok? ==> OfType(t, v.value))
  {
    PushTakes(env, src.symtab, x, i, pc, vs, v);
    PushTyped(env, src, x, i, v, t);
    r' := TurnYields(env, code, pc, i, r, vs, vs, v, next);
  }

  lemma LeafPlaced(code: seq<byte>, pc: nat, x: Leaf, at: nat, op: Op, outs: seq<Insn>)
    requires outs == LeafAccess(x, at, op) && Placed(code, pc, outs)
    ensures |outs| == (if x.Named? then 3 else if x.Element? then 4 else 1) && Placed(code, pc, [outs[0]])
    ensures x.Named? ==> Placed(code, pc + 1, [outs[1]]) && Placed(code, pc + 4, [outs[2]])
    ensures x.Element? ==>
              Placed(code, pc + 1, [outs[1]]) && Placed(code, pc + 4, [outs[2]]) && Placed(code, pc + 13, [outs[3]])
    ensures !x.Named? && !x.Element? ==> outs == [outs[0]]
  {
    if x.Named? {
      PlacedThree(code, pc, outs, pc + 1, pc + 4);
    } else if x.Element? {
      PlacedFour(code, pc, outs, pc + 1, pc + 4, pc + 13);
    }
  }

  // Operators

  lemma ApplyTakes(env: Env, u: UnOp, pc: nat, vs: seq<Value>, a: Value)
    requires env.Valid() && a.VInt?
    ensures Takes(env, Simple(UnaryS64(u)), pc, vs + [a], Goto(pc + 1, vs + [UnaryResult(u, a.v)]))
  {
    TopTakes(env, Simple(UnaryS64(u)), pc, vs, a, Ok(UnaryResult(u, a.v)));
  }

  lemma InvertTakes(env: Env, pc: nat, vs: seq<Value>, a: Value)
    requires env.Valid() && a.VInt?
    ensures Takes(env, Simple(BitNot), pc, vs + [a], Goto(pc + 1, vs + [VInt(MODULUS - 1 - a.v)]))
  {
    TopTakes(env, Simple(BitNot), pc, vs, a, Ok(VInt(MODULUS - 1 - a.v)));
  }

  lemma CastTakes(env: Env, pc: nat, vs: seq<Value>)
    requires env.Valid()
    ensures Takes(env, Simple(CastNop), pc, vs, Goto(pc + 1, vs))
  {
    TurnTaken(env, Simple(CastNop), pc, vs, Goto(pc + 1, vs));
  }

  lemma FoldTakes(env: Env, i: Insn, pc: nat, vs: seq<Value>, b: Value, a: Value, x: Res<Value>)
    requires env.Valid() && IsBinary(i.op) && Size(i) == 1
    requires BinaryResult(i.op, b, a, StringOrder(b, a), GlobOf(b, a)) == x
    ensures Takes(env, i, pc, vs + [b] + [a], TurnOf(vs, x, pc + 1))
  {
    var st := vs + [b] + [a];
    assert Bx(st) == b && Ax(st) == a;
    assert x.Ok? ==> SetAx(Pop(st), x.value) == vs + [x.value];
    TurnTaken(env, i, pc, st, TurnOf(vs, x, pc + 1));
  }

  lemma PatternIsHeld(b: StrReg, a: StrReg)
    ensures a.lit.GlobLiteral? ==> (GlobHolds(b, a) <==> PatternHolds(Glob.Cut(a.data), Glob.Cut(b.data)))
    ensures !a.lit.GlobLiteral? ==> (GlobHolds(b, a) <==> PatternHolds(Glob.Cut(b.data), Glob.Cut(a.data)))
  {
    var p, s := if a.lit.GlobLiteral? then a else b, if a.lit.GlobLiteral? then b else a;
    if !Glob.EndsWithTwoStars(Glob.Cut(p.data)) {
      Glob.LoopIsDeclarative(Glob.Cut(p.data), Glob.Cut(s.data));
    }
  }

  /** The picked comparator compares. */
  lemma PickedCompares(c: CmpOp, below: RegType, top: RegType, op: Op, b: Value, a: Value)
    requires OfType(below, b) && OfType(top, a) && Picked(c, below, top) == Some(op)
    requires (below == S64 && top == S64) || (IsText(below) && IsText(top))
    ensures IsBinary(op) && !op.Bit? && BinaryResult(op, b, a, StringOrder(b, a), GlobOf(b, a)) == Compares(c, b, a)
  {
    if b.VInt? {
      IntegerOrder(c, b.v, a.v);
    } else {
      PatternIsHeld(b.s, a.s);
      if StrCmp(b.s, a.s).Some? {
        TextOrder(c, b.s, a.s);
      }
    }
  }

  lemma BitCombines(op: BitOp, b: Value, a: Value)
    requires b.VInt? && a.VInt?
    ensures BinaryResult(Bit(op), b, a, StringOrder(b, a), GlobOf(b, a)) == BitResult(op, b.v, a.v)
    ensures BitResult(op, b.v, a.v) != Bad(Wild)
    ensures BitResult(op, b.v, a.v).Ok? ==> BitResult(op, b.v, a.v).value.VInt?
  {
  }

  lemma SkipTakes(env: Env, i: Insn, pc: nat, vs: seq<Value>, b: word)
    requires env.Valid() && i.op.Logical?
    ensures Takes(env, i, pc, vs + [VInt(b)],
                  if i.op.isOr && b != 0 then Goto(i.arg, vs + [VInt(1)])
                  else if !i.op.isOr && b == 0 then Goto(i.arg, vs + [VInt(0)])
                  else Goto(pc + 3, vs))
  {
    var st := vs + [VInt(b)];
    assert Pop(st) == vs && SetAx(st, VInt(1)) == vs + [VInt(1)];
    TurnTaken(env, i, pc, st, if i.op.isOr && b != 0 then Goto(i.arg, vs + [VInt(1)])
                              else if !i.op.isOr && b == 0 then Goto(i.arg, vs + [VInt(0)])
                              else Goto(pc + 3, vs));
  }
}
