/** The runs of linked filter expressions: the interpreter computes what they mean. */
module ExpressionRuns {
  import opened Words
  import opened Opcodes
  import opened Validator
  import opened Fields
  import opened Specializer
  import opened StringCompare
  import opened Interpreter
  import opened Linked
  import opened Programs
  import opened Registers
  import opened Comparisons
  import opened Expressions
  import opened ExpressionLinks
  import opened ExpressionValues
  import opened ExpressionSteps
  import Glob

  // Expressions

  /** The lookup data holds the records of an expression. */
  ghost predicate Furnished(gids: map<nat, Gid>, src: Source, e: Expr, at: nat) {
    match e
    case Atom(x) => LeafFurnished(gids, src, x, at)
    case Compare(_, l, r) => Furnished(gids, src, l, at) && Furnished(gids, src, r, After(l, at))
    case Combine(_, l, r) => Furnished(gids, src, l, at) && Furnished(gids, src, r, After(l, at))
    case Apply(_, e) => Furnished(gids, src, e, at)
    case Invert(e) => Furnished(gids, src, e, at)
    case Cast(e) => Furnished(gids, src, e, at)
    case Logic(_, l, r) => Furnished(gids, src, l, at) && Furnished(gids, src, r, After(l, at))
  }

  /** Numbers on the stack, but for the one below a leaf. */
  ghost predicate Numbers(vs: seq<Value>, leaf: bool) {
    forall k :: 0 <= k < (if leaf then |vs| - 1 else |vs|) ==> vs[k].VInt?
  }

  lemma NumbersAbove(vs: seq<Value>, v: Value, leaf: bool)
    requires Numbers(vs, false) && (leaf || v.VInt?)
    ensures Numbers(vs + [v], leaf)
  {
  }

  /** An operator behind its only operand. */
  lemma UnaryYields(env: Env, code: seq<byte>, pc: nat, r: Regs, vs: seq<Value>, x: Res<Value>, mid: nat, m: Regs,
                    i: Insn, y: Res<Value>) returns (r': Regs)
    requires env.Valid() && Shaped(r) && Yields(env, code, pc, r, vs, x, mid, m) && Placed(code, mid, [i])
    requires (IsTop(i.op) || i.op.CastNop?) && y != Bad(Wild)
    requires if x.Ok? then Takes(env, i, mid, vs + [x.value], TurnOf(vs, y, mid + 1)) else y == x
    ensures Yields(env, code, pc, r, vs, y, mid + 1, r')
  {
    r' := m;
    if x.Ok? {
      r' := TurnYields(env, code, mid, i, m, vs + [x.value], vs, y, mid + 1);
      JoinsYields(env, code, pc, r, mid, m, vs, y, mid + 1, r');
    }
  }

  /** An operator behind both operands. */
  lemma BinaryYields(env: Env, code: seq<byte>, pc: nat, r: Regs, vs: seq<Value>, x: Res<Value>, mid: nat, m: Regs,
                     y: Res<Value>, last: nat, n: Regs, i: Insn, z: Res<Value>) returns (r': Regs)
    requires env.Valid() && Shaped(r) && Yields(env, code, pc, r, vs, x, mid, m) && Placed(code, last, [i])
    requires x.Ok? ==> Shaped(m) && Yields(env, code, mid, m, vs + [x.value], y, last, n)
    requires IsBinary(i.op) && z != Bad(Wild) && (i.op.Bit? && x.Ok? && y.Ok? ==> x.value.VInt? && y.value.VInt?)
    requires if x.Bad? then z == x else if y.Bad? then z == y
             else Takes(env, i, last, vs + [x.value] + [y.value], TurnOf(vs, z, last + 1))
    ensures Yields(env, code, pc, r, vs, z, last + 1, r')
  {
    r' := m;
    if x.Ok? {
      if y.Ok? {
        r' := TurnYields(env, code, last, i, n, vs + [x.value] + [y.value], vs, z, last + 1);
        JoinsYields(env, code, mid, m, last, n, vs, z, last + 1, r');
      } else {
        assert Yields(env, code, mid, m, vs, z, last + 1, r');
      }
      JoinsYields(env, code, pc, r, mid, m, vs, z, last + 1, r');
    }
  }

  /** AND and OR behind a first operand that decides. */
  lemma SkipYields(env: Env, code: seq<byte>, pc: nat, r: Regs, vs: seq<Value>, b: word, mid: nat, m: Regs, i: Insn,
                   y: Value) returns (n: Regs)
    requires env.Valid() && Shaped(r) && Yields(env, code, pc, r, vs, Ok(VInt(b)), mid, m) && Placed(code, mid, [i])
    requires i.op.Logical? && mid < i.arg && (i.op.isOr <==> b != 0) && y == VInt(if i.op.isOr then 1 else 0)
    ensures Yields(env, code, pc, r, vs, Ok(y), i.arg, n)
  {
    SkipTakes(env, i, mid, vs, b);
    n := Turned(env, code, mid, i, m, vs + [VInt(b)], vs + [y], i.arg);
    JoinsBoth(env, code, pc, r, mid, m, i.arg, n);
  }

  /** And behind one that does not. */
  lemma FallsThrough(env: Env, code: seq<byte>, pc: nat, r: Regs, vs: seq<Value>, b: word, mid: nat, m: Regs, i: Insn,
                     next: nat) returns (n: Regs)
    requires env.Valid() && Shaped(r) && Yields(env, code, pc, r, vs, Ok(VInt(b)), mid, m) && Placed(code, mid, [i])
    requires i.op.Logical? && (i.op.isOr <==> b == 0) && next == mid + 3
    ensures Represents(n, vs) && Joins(env, code, pc, r, next, n)
  {
    SkipTakes(env, i, mid, vs, b);
    n := Turned(env, code, mid, i, m, vs + [VInt(b)], vs, next);
    JoinsBoth(env, code, pc, r, mid, m, next, n);
  }

  lemma TopOfPair(src: Source, e: Expr)
    requires e.Compare? || e.Combine?
    ensures Top(src, e) == S64
  {
  }

  lemma TopOfLogic(src: Source, e: Expr)
    requires e.Logic?
    ensures Top(src, e) == Top(src, e.r)
  {
  }

  lemma TopOfUnary(src: Source, e: Expr)
    requires e.Apply? || e.Invert? || e.Cast?
    ensures Top(src, e) == Top(src, e.e)
  {
  }

  /** Only a leaf is a text. */
  lemma TextIsLeaf(src: Source, e: Expr)
    requires Resolved(src, e) && Sorted(src, e) && IsText(Top(src, e))
    ensures e.Atom?
  {
    if e.Compare? || e.Combine? {
      TopOfPair(src, e);
    } else if e.Logic? {
      TopOfLogic(src, e);
    } else if !e.Atom? {
      TopOfUnary(src, e);
    }
  }

  /** Two operands and what stands behind them. */
  lemma PairPlaced(code: seq<byte>, a: seq<Insn>, b: seq<Insn>, i: Insn, pc: nat, mid: nat, last: nat)
    requires Placed(code, pc, a + (b + [i])) && mid == pc + Length(a) && last == mid + Length(b)
    ensures Placed(code, pc, a) && Placed(code, mid, b) && Placed(code, last, [i])
  {
    PlacedAppend(code, pc, a, b + [i], Length(a));
    PlacedAppend(code, mid, b, [i], Length(b));
  }

  /** And what stands between them. */
  lemma LogicPlaced(code: seq<byte>, a: seq<Insn>, i: Insn, b: seq<Insn>, pc: nat, mid: nat, last: nat)
    requires Placed(code, pc, a + ([i] + b)) && mid == pc + Length(a) && last == mid + Size(i)
    ensures Placed(code, pc, a) && Placed(code, mid, [i]) && Placed(code, last, b)
  {
    PlacedAppend(code, pc, a, [i] + b, Length(a));
    PlacedNext(code, mid, i, b, last);
  }

  lemma SinglePlaced(code: seq<byte>, src: Source, f: Expr, i: Insn, pc: nat, at: nat, a: seq<Insn>, n: nat)
    requires a == Outs(src, f, pc, at) && n == Len(f) && Placed(code, pc, a + [i])
    ensures Placed(code, pc, a) && Placed(code, pc + n, [i])
  {
    OutsLength(src, f, pc, at, a, n);
    PlacedAppend(code, pc, a, [i], n);
  }

  // Operands

  /** The instructions of an expression. */
  ghost predicate Compiles(src: Source, e: Expr, pc: nat, at: nat, outs: seq<Insn>) { outs == Outs(src, e, pc, at) }

  /** They stand at pc in the code, up to `next`, with records for them in the lookup data, where n
      values are on the stack; they leave a value of type t, and v is what the expression means. */
  ghost predicate Prepared(env: Env, code: seq<byte>, src: Source, e: Expr, pc: nat, at: nat, n: nat, v: Res<Value>,
                           next: nat, t: RegType, outs: seq<Insn>)
    requires env.Valid()
  {
    && Resolved(src, e) && Sorted(src, e) && Furnished(env.gids, src, e, at) && Placed(code, pc, outs)
    && n + Depth(e) <= CAPACITY && next == pc + Len(e) && t == Top(src, e)
    && v == Eval(env, src.symtab, e) && v != Bad(Wild)
  }

  ghost predicate Ready(env: Env, code: seq<byte>, src: Source, e: Expr, pc: nat, at: nat, n: nat, v: Res<Value>,
                        next: nat, t: RegType)
    requires env.Valid()
  {
    forall outs :: Compiles(src, e, pc, at, outs) ==> Prepared(env, code, src, e, pc, at, n, v, next, t, outs)
  }

  lemma MakeReady(env: Env, code: seq<byte>, src: Source, e: Expr, pc: nat, at: nat, n: nat, v: Res<Value>, next: nat,
                  t: RegType, outs: seq<Insn>)
    requires env.Valid() && outs == Outs(src, e, pc, at) && Prepared(env, code, src, e, pc, at, n, v, next, t, outs)
    ensures Ready(env, code, src, e, pc, at, n, v, next, t)
  {
  }

  lemma IsReady(env: Env, code: seq<byte>, src: Source, e: Expr, pc: nat, at: nat, n: nat, v: Res<Value>, next: nat,
                t: RegType) returns (outs: seq<Insn>)
    requires env.Valid() && Ready(env, code, src, e, pc, at, n, v, next, t)
    ensures outs == Outs(src, e, pc, at) && Prepared(env, code, src, e, pc, at, n, v, next, t, outs)
  {
    outs := Outs(src, e, pc, at);
    assert Compiles(src, e, pc, at, outs);
  }

  /** The registers compute the value of a resolved, sorted expression above any numbers, and fail as
      it fails. */
  lemma {:induction false} Evaluated(env: Env, code: seq<byte>, src: Source, e: Expr, pc: nat, at: nat, r: Regs,
                                     vs: seq<Value>, v: Res<Value>, next: nat, t: RegType)
      returns (r': Regs)
    requires Serves(env, src) && Ready(env, code, src, e, pc, at, |vs|, v, next, t)
    requires Represents(r, vs) && Numbers(vs, e.Atom?)
    ensures Yields(env, code, pc, r, vs, v, next, r')
    ensures v.Ok? ==> OfType(t, v.value)
    decreases e, 1
  {
    if e.Atom? {
      var outs := IsReady(env, code, src, e, pc, at, |vs|, v, next, t);
      var (t', op) := LeafType(src, e.x).value;
      r' := LeafYields(env, code, pc, src, e.x, at, r, vs, v, outs, next, t', op);
    } else if e.Compare? || e.Combine? {
      r' := PairEvaluated(env, code, src, e, pc, at, r, vs, v, next, t);
    } else if e.Logic? {
      r' := LogicEvaluated(env, code, src, e, pc, at, r, vs, v, next, t);
    } else {
      r' := UnaryEvaluated(env, code, src, e, pc, at, r, vs, v, next, t);
    }
  }

  // One operand

  function UnaryOut(e: Expr): Insn
    requires e.Apply? || e.Invert? || e.Cast?
  {
    Simple(if e.Apply? then UnaryS64(e.u) else if e.Invert? then BitNot else CastNop)
  }

  /** What the value of an operator is by that of its operand. */
  ghost function UnaryMeans(e: Expr, x: Res<Value>): Res<Value>
    requires e.Apply? || e.Invert? || e.Cast?
  {
    if x.Bad? || e.Cast? then x
    else if !x.value.VInt? then Bad(Error)
    else Ok(if e.Apply? then UnaryResult(e.u, x.value.v) else VInt(MODULUS - 1 - x.value.v))
  }

  lemma UnaryConcludes(env: Env, code: seq<byte>, pc: nat, r: Regs, vs: seq<Value>, e: Expr, x: Res<Value>, mid: nat,
                       m: Regs, v: Res<Value>) returns (r': Regs)
    requires (e.Apply? || e.Invert? || e.Cast?) && (x.Ok? ==> x.value.VInt?) && v == UnaryMeans(e, x) && v != Bad(Wild)
    requires env.Valid() && Shaped(r) && Yields(env, code, pc, r, vs, x, mid, m) && Placed(code, mid, [UnaryOut(e)])
    ensures Yields(env, code, pc, r, vs, v, mid + 1, r') && (v.Ok? ==> v.value.VInt?)
  {
    if x.Ok? {
      if e.Apply? {
        ApplyTakes(env, e.u, mid, vs, x.value);
      } else if e.Invert? {
        InvertTakes(env, mid, vs, x.value);
      } else {
        CastTakes(env, mid, vs + [x.value]);
      }
    }
    r' := UnaryYields(env, code, pc, r, vs, x, mid, m, UnaryOut(e), v);
  }

  lemma UnaryInherits(env: Env, src: Source, e: Expr, f: Expr, at: nat, v: Res<Value>)
    requires (e.Apply? || e.Invert? || e.Cast?) && f == e.e
    requires env.Valid() && Resolved(src, e) && Sorted(src, e) && Furnished(env.gids, src, e, at)
    requires v == Eval(env, src.symtab, e) && v != Bad(Wild)
    ensures Resolved(src, f) && Sorted(src, f) && Furnished(env.gids, src, f, at) && IsInt(Top(src, f))
    ensures Depth(f) == Depth(e) && Len(e) == Len(f) + 1 && Top(src, e) == Top(src, f)
    ensures v == UnaryMeans(e, Eval(env, src.symtab, f)) && Eval(env, src.symtab, f) != Bad(Wild)
  {
    TopOfUnary(src, e);
  }

  lemma UnaryStands(code: seq<byte>, src: Source, e: Expr, f: Expr, i: Insn, pc: nat, at: nat, outs: seq<Insn>)
    requires (e.Apply? || e.Invert? || e.Cast?) && f == e.e && i == UnaryOut(e)
    requires outs == Outs(src, e, pc, at) && Placed(code, pc, outs)
    ensures Placed(code, pc, Outs(src, f, pc, at)) && Placed(code, pc + Len(f), [i])
  {
    assert outs == Outs(src, f, pc, at) + [i];
    SinglePlaced(code, src, f, i, pc, at, Outs(src, f, pc, at), Len(f));
  }

  lemma UnaryReadied(env: Env, code: seq<byte>, src: Source, e: Expr, f: Expr, pc: nat, at: nat, n: nat, v: Res<Value>,
                     next: nat, t: RegType, outs: seq<Insn>, x: Res<Value>, mid: nat, a: seq<Insn>)
    requires (e.Apply? || e.Invert? || e.Cast?) && f == e.e && env.Valid() && outs == Outs(src, e, pc, at)
    requires Prepared(env, code, src, e, pc, at, n, v, next, t, outs)
    requires x == Eval(env, src.symtab, f) && mid == pc + Len(f) && a == Outs(src, f, pc, at)
    ensures Ready(env, code, src, f, pc, at, n, x, mid, t) && IsInt(t) && v == UnaryMeans(e, x) && v != Bad(Wild)
    ensures Placed(code, mid, [UnaryOut(e)]) && next == mid + 1
  {
    UnaryInherits(env, src, e, f, at, v);
    UnaryStands(code, src, e, f, UnaryOut(e), pc, at, outs);
    MakeReady(env, code, src, f, pc, at, n, x, mid, t, a);
  }

  /** The operand, ready. */
  lemma UnaryReady(env: Env, code: seq<byte>, src: Source, e: Expr, pc: nat, at: nat, n: nat, v: Res<Value>, next: nat,
                   t: RegType) returns (x: Res<Value>, mid: nat)
    requires (e.Apply? || e.Invert? || e.Cast?) && env.Valid() && Ready(env, code, src, e, pc, at, n, v, next, t)
    ensures Ready(env, code, src, e.e, pc, at, n, x, mid, t) && IsInt(t) && v == UnaryMeans(e, x) && v != Bad(Wild)
    ensures Placed(code, mid, [UnaryOut(e)]) && next == mid + 1
  {
    var outs := IsReady(env, code, src, e, pc, at, n, v, next, t);
    x, mid := Eval(env, src.symtab, e.e), pc + Len(e.e);
    UnaryReadied(env, code, src, e, e.e, pc, at, n, v, next, t, outs, x, mid, Outs(src, e.e, pc, at));
  }

  lemma {:induction false} UnaryEvaluated(env: Env, code: seq<byte>, src: Source, e: Expr, pc: nat, at: nat, r: Regs,
                                          vs: seq<Value>, v: Res<Value>, next: nat, t: RegType)
      returns (r': Regs)
    requires Serves(env, src) && (e.Apply? || e.Invert? || e.Cast?)
    requires Ready(env, code, src, e, pc, at, |vs|, v, next, t) && Represents(r, vs) && Numbers(vs, false)
    ensures Yields(env, code, pc, r, vs, v, next, r')
    ensures IsInt(t) && (v.Ok? ==> v.value.VInt?)
    decreases e, 0, 1
  {
    var x, mid := UnaryReady(env, code, src, e, pc, at, |vs|, v, next, t);
    NumbersLeaf(vs);
    var m := Evaluated(env, code, src, e.e, pc, at, r, vs, x, mid, t);
    r' := UnaryConcludes(env, code, pc, r, vs, e, x, mid, m, v);
  }

  // Two operands

  /** The instruction behind both. */
  function PairOut(src: Source, e: Expr): Insn
    requires e.Compare? || e.Combine?
  {
    if e.Compare? then Compared(src, e.c, e.l, e.r) else Simple(Bit(e.b))
  }

  /** What the value of an operator is by those of its operands. */
  ghost function PairMeans(e: Expr, x: Res<Value>, y: Res<Value>): Res<Value>
    requires e.Compare? || e.Combine?
  {
    if x.Bad? then x
    else if y.Bad? then y
    else if e.Compare? then Compares(e.c, x.value, y.value)
    else if x.value.VInt? && y.value.VInt? then BitResult(e.b, x.value.v, y.value.v)
    else Bad(Error)
  }

  /** What the instruction demands of their types. */
  predicate PairTypes(e: Expr, i: Insn, t: RegType, u: RegType)
    requires e.Compare? || e.Combine?
  {
    if e.Combine? then IsInt(t) && IsInt(u) && i == Simple(Bit(e.b))
    else Picked(e.c, t, u) == Some(i.op) && i == Simple(i.op) && ((t == S64 && u == S64) || (IsText(t) && IsText(u)))
  }

  lemma CompareConcludes(env: Env, code: seq<byte>, pc: nat, r: Regs, vs: seq<Value>, x: Res<Value>, mid: nat, m: Regs,
                         y: Res<Value>, last: nat, n: Regs, i: Insn, v: Res<Value>, c: CmpOp, t: RegType, u: RegType)
      returns (r': Regs)
    requires env.Valid() && Shaped(r) && Yields(env, code, pc, r, vs, x, mid, m) && Placed(code, last, [i])
    requires x.Ok? ==> Shaped(m) && Yields(env, code, mid, m, vs + [x.value], y, last, n)
    requires Picked(c, t, u) == Some(i.op) && i == Simple(i.op)
    requires (t == S64 && u == S64) || (IsText(t) && IsText(u))
    requires (x.Ok? ==> OfType(t, x.value)) && (x.Ok? && y.Ok? ==> OfType(u, y.value))
    requires v != Bad(Wild)
    requires v == if x.Bad? then x else if y.Bad? then y else Compares(c, x.value, y.value)
    ensures Yields(env, code, pc, r, vs, v, last + 1, r')
    ensures v.Ok? ==> v.value.VInt?
  {
    PickedIsBinary(c, t, u, i.op);
    if x.Ok? && y.Ok? {
      PickedCompares(c, t, u, i.op, x.value, y.value);
      FoldTakes(env, i, last, vs, x.value, y.value, v);
    }
    r' := BinaryYields(env, code, pc, r, vs, x, mid, m, y, last, n, i, v);
  }

  lemma PickedIsBinary(c: CmpOp, t: RegType, u: RegType, op: Op)
    requires Picked(c, t, u) == Some(op) && ((t == S64 && u == S64) || (IsText(t) && IsText(u)))
    ensures IsBinary(op) && !op.Bit? && Size(Simple(op)) == 1
  {
  }

  lemma CombineConcludes(env: Env, code: seq<byte>, pc: nat, r: Regs, vs: seq<Value>, x: Res<Value>, mid: nat, m: Regs,
                         y: Res<Value>, last: nat, n: Regs, i: Insn, v: Res<Value>, op: BitOp)
      returns (r': Regs)
    requires env.Valid() && Shaped(r) && Yields(env, code, pc, r, vs, x, mid, m) && Placed(code, last, [i])
    requires x.Ok? ==> Shaped(m) && Yields(env, code, mid, m, vs + [x.value], y, last, n)
    requires i == Simple(Bit(op)) && (x.Ok? ==> x.value.VInt?) && (x.Ok? && y.Ok? ==> y.value.VInt?) && v != Bad(Wild)
    requires v == if x.Bad? then x else if y.Bad? then y else BitResult(op, x.value.v, y.value.v)
    ensures Yields(env, code, pc, r, vs, v, last + 1, r')
    ensures v.Ok? ==> v.value.VInt?
  {
    if x.Ok? && y.Ok? {
      BitCombines(op, x.value, y.value);
      FoldTakes(env, i, last, vs, x.value, y.value, v);
    }
    r' := BinaryYields(env, code, pc, r, vs, x, mid, m, y, last, n, i, v);
  }

  /** Either of them. */
  lemma PairConcludes(env: Env, code: seq<byte>, e: Expr, pc: nat, r: Regs, vs: seq<Value>, x: Res<Value>, mid: nat,
                      m: Regs, y: Res<Value>, last: nat, n: Regs, i: Insn, v: Res<Value>, t: RegType, u: RegType)
      returns (r': Regs)
    requires env.Valid() && Shaped(r) && Yields(env, code, pc, r, vs, x, mid, m) && Placed(code, last, [i])
    requires x.Ok? ==> Shaped(m) && Yields(env, code, mid, m, vs + [x.value], y, last, n)
    requires (x.Ok? ==> OfType(t, x.value)) && (x.Ok? && y.Ok? ==> OfType(u, y.value))
    requires (e.Compare? || e.Combine?) && PairTypes(e, i, t, u) && v == PairMeans(e, x, y) && v != Bad(Wild)
    ensures Yields(env, code, pc, r, vs, v, last + 1, r')
    ensures v.Ok? ==> v.value.VInt?
  {
    if e.Compare? {
      r' := CompareConcludes(env, code, pc, r, vs, x, mid, m, y, last, n, i, v, e.c, t, u);
    } else {
      r' := CombineConcludes(env, code, pc, r, vs, x, mid, m, y, last, n, i, v, e.b);
    }
  }

  /** What both operands of an operator inherit. */
  lemma PairInherits(env: Env, src: Source, e: Expr, at: nat, n: nat, v: Res<Value>)
    requires env.Valid() && (e.Compare? || e.Combine?)
    requires Resolved(src, e) && Sorted(src, e) && Furnished(env.gids, src, e, at) && n + Depth(e) <= CAPACITY
    requires v == Eval(env, src.symtab, e) && v != Bad(Wild)
    ensures Resolved(src, e.l) && Sorted(src, e.l) && Furnished(env.gids, src, e.l, at) && n + Depth(e.l) <= CAPACITY
    ensures Resolved(src, e.r) && Sorted(src, e.r) && Furnished(env.gids, src, e.r, After(e.l, at))
    ensures n + 1 + Depth(e.r) <= CAPACITY && Eval(env, src.symtab, e.l) != Bad(Wild)
    ensures Eval(env, src.symtab, e.l).Ok? ==> Eval(env, src.symtab, e.r) != Bad(Wild)
    ensures IsInt(Top(src, e.l)) || e.r.Atom?
    ensures v == PairMeans(e, Eval(env, src.symtab, e.l), Eval(env, src.symtab, e.r))
  {
    if IsText(Top(src, e.r)) {
      TextIsLeaf(src, e.r);
    }
  }

  lemma PairTyped(src: Source, e: Expr, i: Insn)
    requires (e.Compare? || e.Combine?) && Resolved(src, e) && Sorted(src, e) && i == PairOut(src, e)
    ensures PairTypes(e, i, Top(src, e.l), Top(src, e.r)) && Len(e) == Len(e.l) + Len(e.r) + 1
  {
  }

  lemma PairStands(code: seq<byte>, a: seq<Insn>, b: seq<Insn>, i: Insn, outs: seq<Insn>, pc: nat, mid: nat, last: nat)
    requires outs == a + (b + [i]) && mid == pc + Length(a) && last == mid + Length(b) && Placed(code, pc, outs)
    ensures Placed(code, pc, a) && Placed(code, mid, b) && Placed(code, last, [i])
  {
    PairPlaced(code, a, b, i, pc, mid, last);
  }

  lemma PairFits(src: Source, l: Expr, s: Expr, pc: nat, mid: nat, at: nat, a: seq<Insn>, b: seq<Insn>, n: nat, m: nat)
    requires a == Outs(src, l, pc, at) && b == Outs(src, s, mid, After(l, at)) && n == Len(l) && m == Len(s)
    ensures Length(a) == n && Length(b) == m
  {
    OutsLength(src, l, pc, at, a, n);
    OutsLength(src, s, mid, After(l, at), b, m);
  }

  lemma PairOuts(src: Source, e: Expr, i: Insn, pc: nat, at: nat, outs: seq<Insn>)
    requires (e.Compare? || e.Combine?) && i == PairOut(src, e) && outs == Outs(src, e, pc, at)
    ensures outs == Outs(src, e.l, pc, at) + (Outs(src, e.r, pc + Len(e.l), After(e.l, at)) + [i])
  {
  }

  lemma PairHeld(code: seq<byte>, src: Source, e: Expr, l: Expr, s: Expr, i: Insn, pc: nat, mid: nat, at: nat,
                 outs: seq<Insn>, a: seq<Insn>, b: seq<Insn>, last: nat)
    requires (e.Compare? || e.Combine?) && e.l == l && e.r == s && mid == pc + Len(l) && last == mid + Len(s)
    requires i == PairOut(src, e) && outs == Outs(src, e, pc, at) && Placed(code, pc, outs)
    requires a == Outs(src, l, pc, at) && b == Outs(src, s, mid, After(l, at))
    ensures Placed(code, pc, a) && Placed(code, mid, b) && Placed(code, last, [i])
  {
    PairOuts(src, e, i, pc, at, outs);
    PairFits(src, l, s, pc, mid, at, a, b, Len(l), Len(s));
    PairStands(code, a, b, i, outs, pc, mid, last);
  }

  lemma PairReadied(env: Env, code: seq<byte>, src: Source, e: Expr, pc: nat, at: nat, n: nat, v: Res<Value>,
                    outs: seq<Insn>, x: Res<Value>, y: Res<Value>, mid: nat, at': nat, last: nat, i: Insn, t: RegType,
                    u: RegType)
    requires (e.Compare? || e.Combine?) && env.Valid() && outs == Outs(src, e, pc, at) && i == PairOut(src, e)
    requires Prepared(env, code, src, e, pc, at, n, v, last + 1, Top(src, e), outs)
    requires x == Eval(env, src.symtab, e.l) && y == Eval(env, src.symtab, e.r) && at' == After(e.l, at)
    requires mid == pc + Len(e.l) && last == mid + Len(e.r) && t == Top(src, e.l) && u == Top(src, e.r)
    ensures Ready(env, code, src, e.l, pc, at, n, x, mid, t) && (IsInt(t) || e.r.Atom?)
    ensures x.Ok? ==> Ready(env, code, src, e.r, mid, at', n + 1, y, last, u)
    ensures v == PairMeans(e, x, y) && v != Bad(Wild) && Placed(code, last, [i])
  {
    var a, b := Outs(src, e.l, pc, at), Outs(src, e.r, mid, at');
    PairInherits(env, src, e, at, n, v);
    PairHeld(code, src, e, e.l, e.r, i, pc, mid, at, outs, a, b, last);
    MakeReady(env, code, src, e.l, pc, at, n, x, mid, t, a);
    if x.Ok? {
      MakeReady(env, code, src, e.r, mid, at', n + 1, y, last, u, b);
    }
  }

  /** The operands, ready: the second one for a stack with the value of the first. */
  lemma PairReady(env: Env, code: seq<byte>, src: Source, e: Expr, pc: nat, at: nat, n: nat, v: Res<Value>, next: nat,
                  w: RegType)
      returns (x: Res<Value>, y: Res<Value>, mid: nat, at': nat, last: nat, i: Insn, t: RegType, u: RegType)
    requires (e.Compare? || e.Combine?) && env.Valid() && Ready(env, code, src, e, pc, at, n, v, next, w)
    ensures Ready(env, code, src, e.l, pc, at, n, x, mid, t) && (IsInt(t) || e.r.Atom?)
    ensures x.Ok? ==> Ready(env, code, src, e.r, mid, at', n + 1, y, last, u)
    ensures PairTypes(e, i, t, u) && v == PairMeans(e, x, y) && v != Bad(Wild)
    ensures Placed(code, last, [i]) && next == last + 1 && w == S64
  {
    var outs := IsReady(env, code, src, e, pc, at, n, v, next, w);
    x, y, i := Eval(env, src.symtab, e.l), Eval(env, src.symtab, e.r), PairOut(src, e);
    mid, at', t, u := pc + Len(e.l), After(e.l, at), Top(src, e.l), Top(src, e.r);
    last := mid + Len(e.r);
    PairTyped(src, e, i);
    PairReadied(env, code, src, e, pc, at, n, v, outs, x, y, mid, at', last, i, t, u);
    TopOfPair(src, e);
  }

  lemma {:induction false} PairEvaluated(env: Env, code: seq<byte>, src: Source, e: Expr, pc: nat, at: nat, r: Regs,
                                         vs: seq<Value>, v: Res<Value>, next: nat, w: RegType)
      returns (r': Regs)
    requires Serves(env, src) && (e.Compare? || e.Combine?)
    requires Ready(env, code, src, e, pc, at, |vs|, v, next, w) && Represents(r, vs) && Numbers(vs, false)
    ensures Yields(env, code, pc, r, vs, v, next, r')
    ensures w == S64 && (v.Ok? ==> v.value.VInt?)
    decreases e, 0, 1
  {
    var x, y, mid, at', last, i, t, u := PairReady(env, code, src, e, pc, at, |vs|, v, next, w);
    var m, n := OperandsEvaluated(env, code, src, e, e.l, e.r, pc, at, mid, at', last, r, vs, x, y, t, u);
    r' := PairConcludes(env, code, e, pc, r, vs, x, mid, m, y, last, n, i, v, t, u);
  }

  /** Both operands of a comparator or a bit operator, one after the other. */
  lemma {:induction false} OperandsEvaluated(env: Env, code: seq<byte>, src: Source, e: Expr, l: Expr, s: Expr, pc: nat,
                                             at: nat, mid: nat, at': nat, last: nat, r: Regs, vs: seq<Value>,
                                             x: Res<Value>, y: Res<Value>, t: RegType, u: RegType)
      returns (m: Regs, n: Regs)
    requires (e.Compare? || e.Combine?) && l == e.l && s == e.r && Serves(env, src)
    requires Ready(env, code, src, l, pc, at, |vs|, x, mid, t) && (IsInt(t) || s.Atom?)
    requires x.Ok? ==> Ready(env, code, src, s, mid, at', |vs| + 1, y, last, u)
    requires Represents(r, vs) && Numbers(vs, false)
    ensures Yields(env, code, pc, r, vs, x, mid, m) && (x.Ok? ==> OfType(t, x.value))
    ensures x.Ok? ==> Shaped(m) && Yields(env, code, mid, m, vs + [x.value], y, last, n)
    ensures x.Ok? && y.Ok? ==> OfType(u, y.value)
    decreases e, 0, 0
  {
    NumbersLeaf(vs);
    m := Evaluated(env, code, src, l, pc, at, r, vs, x, mid, t);
    n := m;
    if x.Ok? {
      NumbersAbove(vs, x.value, s.Atom?);
      n := Evaluated(env, code, src, s, mid, at', m, vs + [x.value], y, last, u);
    }
  }

  lemma NumbersLeaf(vs: seq<Value>)
    ensures Numbers(vs, false) ==> Numbers(vs, true)
  {
  }

  // AND and OR

  lemma LogicInherits(env: Env, src: Source, e: Expr, at: nat, v: Res<Value>)
    requires env.Valid() && e.Logic? && Resolved(src, e) && Sorted(src, e) && Furnished(env.gids, src, e, at)
    requires v == Eval(env, src.symtab, e) && v != Bad(Wild)
    ensures Resolved(src, e.l) && Sorted(src, e.l) && Furnished(env.gids, src, e.l, at) && IsInt(Top(src, e.l))
    ensures Resolved(src, e.r) && Sorted(src, e.r) && Furnished(env.gids, src, e.r, After(e.l, at))
    ensures IsInt(Top(src, e.r)) && Top(src, e) == Top(src, e.r)
    ensures Depth(e.l) <= Depth(e) && Depth(e.r) <= Depth(e) && Eval(env, src.symtab, e.l) != Bad(Wild)
    ensures v == LogicMeans(e.isOr, Eval(env, src.symtab, e.l), Eval(env, src.symtab, e.r))
    ensures Len(e) == Len(e.l) + 3 + Len(e.r)
  {
    TopOfLogic(src, e);
  }

  /** The value of AND and OR by those of their operands. */
  function LogicMeans(isOr: bool, x: Res<Value>, y: Res<Value>): Res<Value> {
    if x.Bad? then x
    else if !x.value.VInt? then Bad(Error)
    else if isOr == (x.value.v == 0) then y
    else Ok(VInt(if isOr then 1 else 0))
  }

  /** The first operand leaves the decision to the second. */
  predicate Undecided(isOr: bool, x: Res<Value>) { x.Ok? && x.value.VInt? && isOr == (x.value.v == 0) }

  lemma LogicStands(code: seq<byte>, src: Source, l: Expr, i: Insn, pc: nat, mid: nat, at: nat, outs: seq<Insn>,
                    a: seq<Insn>, b: seq<Insn>)
    requires a == Outs(src, l, pc, at) && outs == a + ([i] + b) && mid == pc + Len(l) && Placed(code, pc, outs)
    ensures Placed(code, pc, a) && Placed(code, mid, [i]) && Placed(code, mid + Size(i), b)
  {
    OutsLength(src, l, pc, at, a, Len(l));
    LogicPlaced(code, a, i, b, pc, mid, mid + Size(i));
  }

  lemma LogicHeld(code: seq<byte>, src: Source, e: Expr, l: Expr, s: Expr, i: Insn, pc: nat, mid: nat, at: nat,
                  outs: seq<Insn>)
    requires e.Logic? && e.l == l && e.r == s && i == Skip(e.isOr, l, s, pc) && mid == pc + Len(l)
    requires outs == Outs(src, e, pc, at) && Placed(code, pc, outs)
    ensures Placed(code, pc, Outs(src, l, pc, at)) && Placed(code, mid, [i])
    ensures Placed(code, mid + 3, Outs(src, s, mid + 3, After(l, at)))
  {
    LogicOuts(src, e, i, pc, at, outs);
    LogicStands(code, src, l, i, pc, mid, at, outs, Outs(src, l, pc, at), Outs(src, s, mid + 3, After(l, at)));
  }

  lemma LogicOuts(src: Source, e: Expr, i: Insn, pc: nat, at: nat, outs: seq<Insn>)
    requires e.Logic? && i == Skip(e.isOr, e.l, e.r, pc) && outs == Outs(src, e, pc, at)
    ensures outs == Outs(src, e.l, pc, at) + ([i] + Outs(src, e.r, pc + Len(e.l) + 3, After(e.l, at)))
  {
  }

  lemma LogicReadied(env: Env, code: seq<byte>, src: Source, e: Expr, pc: nat, at: nat, n: nat, v: Res<Value>,
                     next: nat, u: RegType, outs: seq<Insn>, x: Res<Value>, y: Res<Value>, mid: nat, pc': nat, at': nat,
                     i: Insn, t: RegType)
    requires e.Logic? && env.Valid() && outs == Outs(src, e, pc, at) && i == Skip(e.isOr, e.l, e.r, pc)
    requires Prepared(env, code, src, e, pc, at, n, v, next, u, outs) && t == Top(src, e.l)
    requires x == Eval(env, src.symtab, e.l) && y == Eval(env, src.symtab, e.r) && at' == After(e.l, at)
    requires mid == pc + Len(e.l) && pc' == mid + 3
    ensures Ready(env, code, src, e.l, pc, at, n, x, mid, t) && IsInt(t) && IsInt(u)
    ensures Undecided(e.isOr, x) ==> Ready(env, code, src, e.r, pc', at', n, y, next, u)
    ensures v == LogicMeans(e.isOr, x, y) && v != Bad(Wild)
    ensures Placed(code, mid, [i]) && i.op == Logical(e.isOr) && i.arg == next && mid < next
  {
    LogicInherits(env, src, e, at, v);
    LogicHeld(code, src, e, e.l, e.r, i, pc, mid, at, outs);
    MakeReady(env, code, src, e.l, pc, at, n, x, mid, t, Outs(src, e.l, pc, at));
    if Undecided(e.isOr, x) {
      MakeReady(env, code, src, e.r, pc', at', n, y, next, u, Outs(src, e.r, pc', at'));
    }
  }

  /** The operands, ready: the second one if the first does not decide. */
  lemma LogicReady(env: Env, code: seq<byte>, src: Source, e: Expr, pc: nat, at: nat, n: nat, v: Res<Value>, next: nat,
                   u: RegType)
      returns (x: Res<Value>, y: Res<Value>, mid: nat, pc': nat, at': nat, i: Insn, t: RegType)
    requires e.Logic? && env.Valid() && Ready(env, code, src, e, pc, at, n, v, next, u)
    ensures Ready(env, code, src, e.l, pc, at, n, x, mid, t) && IsInt(t) && IsInt(u)
    ensures Undecided(e.isOr, x) ==> Ready(env, code, src, e.r, pc', at', n, y, next, u)
    ensures v == LogicMeans(e.isOr, x, y) && v != Bad(Wild) && pc' == mid + 3
    ensures Placed(code, mid, [i]) && i.op == Logical(e.isOr) && i.arg == next && mid < next
  {
    var outs := IsReady(env, code, src, e, pc, at, n, v, next, u);
    x, y, i := Eval(env, src.symtab, e.l), Eval(env, src.symtab, e.r), Skip(e.isOr, e.l, e.r, pc);
    mid, at', t := pc + Len(e.l), After(e.l, at), Top(src, e.l);
    pc' := mid + 3;
    LogicReadied(env, code, src, e, pc, at, n, v, next, u, outs, x, y, mid, pc', at', i, t);
  }

  lemma {:induction false} LogicEvaluated(env: Env, code: seq<byte>, src: Source, e: Expr, pc: nat, at: nat, r: Regs,
                                          vs: seq<Value>, v: Res<Value>, next: nat, u: RegType)
      returns (r': Regs)
    requires Serves(env, src) && e.Logic?
    requires Ready(env, code, src, e, pc, at, |vs|, v, next, u) && Represents(r, vs) && Numbers(vs, false)
    ensures Yields(env, code, pc, r, vs, v, next, r')
    ensures IsInt(u) && (v.Ok? ==> v.value.VInt?)
    decreases e, 0, 1
  {
    var x, y, mid, pc', at', i, t := LogicReady(env, code, src, e, pc, at, |vs|, v, next, u);
    if Undecided(e.isOr, x) {
      var n := FirstFalls(env, code, src, e, e.l, pc, at, mid, pc', r, vs, x, i, t);
      r' := SecondEvaluated(env, code, src, e, e.r, pc, r, pc', at', next, n, vs, y, u);
    } else {
      r' := FirstDecides(env, code, src, e, e.l, pc, at, mid, next, r, vs, x, i, v, t);
    }
  }

  /** A first operand that does not decide. */
  lemma {:induction false} FirstFalls(env: Env, code: seq<byte>, src: Source, e: Expr, l: Expr, pc: nat, at: nat,
                                      mid: nat, pc': nat, r: Regs, vs: seq<Value>, x: Res<Value>, i: Insn, t: RegType)
      returns (n: Regs)
    requires e.Logic? && l == e.l && Serves(env, src) && Represents(r, vs) && Numbers(vs, false)
    requires Ready(env, code, src, l, pc, at, |vs|, x, mid, t) && Undecided(e.isOr, x)
    requires Placed(code, mid, [i]) && i.op == Logical(e.isOr) && pc' == mid + 3
    ensures Represents(n, vs) && Joins(env, code, pc, r, pc', n)
    decreases e, 0, 0
  {
    NumbersLeaf(vs);
    var m := Evaluated(env, code, src, l, pc, at, r, vs, x, mid, t);
    assert x == Ok(VInt(x.value.v));
    n := FallsThrough(env, code, pc, r, vs, x.value.v, mid, m, i, pc');
  }

  /** A first operand that decides, or fails. */
  lemma {:induction false} FirstDecides(env: Env, code: seq<byte>, src: Source, e: Expr, l: Expr, pc: nat, at: nat,
                                        mid: nat, next: nat, r: Regs, vs: seq<Value>, x: Res<Value>, i: Insn,
                                        v: Res<Value>, t: RegType)
      returns (n: Regs)
    requires e.Logic? && l == e.l && Serves(env, src) && Represents(r, vs) && Numbers(vs, false)
    requires Ready(env, code, src, l, pc, at, |vs|, x, mid, t) && IsInt(t)
    requires Placed(code, mid, [i]) && i.op == Logical(e.isOr) && mid < next == i.arg
    requires x.Ok? && x.value.VInt? ==> e.isOr == (x.value.v != 0) && v == Ok(VInt(if e.isOr then 1 else 0))
    requires x.Bad? ==> v == x
    ensures Yields(env, code, pc, r, vs, v, next, n)
    ensures v.Ok? && x.Ok? ==> v.value.VInt?
    decreases e, 0, 0
  {
    NumbersLeaf(vs);
    var m := Evaluated(env, code, src, l, pc, at, r, vs, x, mid, t);
    n := m;
    if x.Ok? {
      assert x == Ok(VInt(x.value.v));
      n := SkipYields(env, code, pc, r, vs, x.value.v, mid, m, i, v.value);
    }
  }

  /** The second operand of AND or OR, whose value is that of the whole. */
  lemma {:induction false} SecondEvaluated(env: Env, code: seq<byte>, src: Source, e: Expr, s: Expr, pc: nat, r: Regs,
                                           pc': nat, at: nat, next: nat, n: Regs, vs: seq<Value>, v: Res<Value>,
                                           t: RegType)
      returns (r': Regs)
    requires e.Logic? && s == e.r && Serves(env, src) && Shaped(r) && Represents(n, vs) && Numbers(vs, false)
    requires Ready(env, code, src, s, pc', at, |vs|, v, next, t) && IsInt(t) && Joins(env, code, pc, r, pc', n)
    ensures Yields(env, code, pc, r, vs, v, next, r')
    ensures v.Ok? ==> v.value.VInt?
    decreases e, 0, 0
  {
    NumbersLeaf(vs);
    r' := Evaluated(env, code, src, s, pc', at, n, vs, v, next, t);
    JoinsYields(env, code, pc, r, pc', n, vs, v, next, r');
  }

  // Records

  ghost predicate Holds(gids: map<nat, Gid>, arena: Arena) {
    forall k :: k in arena.gids ==> k in gids && gids[k] == arena.gids[k]
  }

  lemma PutKeeps(gids: map<nat, Gid>, arena: Arena, g: Gid)
    requires arena.Valid() && Holds(gids, Put(arena, g))
    ensures Put(arena, g).Valid() && Holds(gids, arena) && arena.len in gids && gids[arena.len] == g
  {
    var p := Put(arena, g);
    assert arena.len in p.gids && p.gids[arena.len] == g;
    forall k | k in arena.gids ensures k in gids && gids[k] == arena.gids[k] {
      assert k in p.gids && p.gids[k] == arena.gids[k];
    }
  }

  lemma PutIsValid(arena: Arena, g: Gid)
    requires arena.Valid()
    ensures Put(arena, g).Valid()
  {
  }

  lemma LeafStoredValid(src: Source, x: Leaf, arena: Arena)
    requires arena.Valid()
    ensures LeafStored(src, x, arena).Valid()
  {
  }

  lemma {:induction false} StoredValid(src: Source, e: Expr, arena: Arena)
    requires arena.Valid()
    ensures Stored(src, e, arena).Valid()
    decreases e
  {
    match e
    case Atom(x) => LeafStoredValid(src, x, arena);
    case Compare(_, l, r) =>
      StoredValid(src, l, arena);
      StoredValid(src, r, Stored(src, l, arena));
    case Combine(_, l, r) =>
      StoredValid(src, l, arena);
      StoredValid(src, r, Stored(src, l, arena));
    case Logic(_, l, r) =>
      StoredValid(src, l, arena);
      StoredValid(src, r, Stored(src, l, arena));
    case Apply(_, f) => StoredValid(src, f, arena);
    case Invert(f) => StoredValid(src, f, arena);
    case Cast(f) => StoredValid(src, f, arena);
  }

  lemma LeafStoredFurnishes(gids: map<nat, Gid>, src: Source, x: Leaf, arena: Arena)
    requires arena.Valid() && LeafType(src, x).Some? && Holds(gids, LeafStored(src, x, arena))
    ensures Holds(gids, arena) && LeafFurnished(gids, src, x, arena.len)
  {
    if x.Named? {
      LoadedDenotes(DeclaredAs(src, x.ctx, x.sym).value, x.ctx);
      PutKeeps(gids, arena, NameGid(src, x.ctx, x.sym));
    } else if x.Element? {
      var el := ElementOf(DeclaredAs(src, false, x.sym).value, x.index).value;
      var g, h := NameGid(src, false, x.sym), ElemGid(el, x.index);
      PutIsValid(arena, g);
      PutKeeps(gids, Put(arena, g), h);
      PutKeeps(gids, arena, g);
    }
  }

  /** The stored records serve the expression. */
  lemma {:induction false} StoredFurnishes(gids: map<nat, Gid>, src: Source, e: Expr, arena: Arena)
    requires arena.Valid() && Packed(arena) && Resolved(src, e) && After(e, arena.len) <= MAX_DATA_LEN
    requires Holds(gids, Stored(src, e, arena))
    ensures Holds(gids, arena) && Furnished(gids, src, e, arena.len)
    decreases e
  {
    match e
    case Atom(x) => LeafStoredFurnishes(gids, src, x, arena);
    case Apply(_, f) => StoredFurnishes(gids, src, f, arena);
    case Invert(f) => StoredFurnishes(gids, src, f, arena);
    case Cast(f) => StoredFurnishes(gids, src, f, arena);
    case _ =>
      var mid := Stored(src, e.l, arena);
      StoredPacked(src, e.l, arena);
      StoredValid(src, e.l, arena);
      StoredFurnishes(gids, src, e.r, mid);
      StoredFurnishes(gids, src, e.l, arena);
  }

  // Whole programs

  lemma AssembledHead(code: seq<byte>, pre: seq<byte>, ins: seq<Insn>, pc: nat)
    requires ins != [] && Encodable(ins[0]) && code == pre + Assemble(ins) && pc == |pre|
    ensures Held(code, pc, ins[0])
  {
    EncodeDecodes(code, pre, ins[0], Assemble(ins[1..]), pc);
    HeldStands(code, pc, ins[0]);
  }

  lemma AssembledTail(code: seq<byte>, pre: seq<byte>, ins: seq<Insn>)
    requires ins != [] && code == pre + Assemble(ins)
    ensures code == (pre + Encode(ins[0])) + Assemble(ins[1..])
  {
    Associative(pre, Encode(ins[0]), Assemble(ins[1..]));
  }

  lemma {:induction false} AssembledPlaced(code: seq<byte>, pre: seq<byte>, ins: seq<Insn>, pc: nat)
    requires AllEncodable(ins) && code == pre + Assemble(ins) && pc == |pre|
    ensures Placed(code, pc, ins)
    decreases |ins|
  {
    if ins != [] {
      var i, rest, pre', next := ins[0], ins[1..], pre + Encode(ins[0]), pc + Size(ins[0]);
      AssembledHead(code, pre, ins, pc);
      AssembledTail(code, pre, ins);
      assert AllEncodable(rest) && next == |pre'| && code == pre' + Assemble(rest);
      AssembledPlaced(code, pre', rest, next);
      PlacedCons(code, pc, i, ins, rest, next);
    }
  }

  lemma FreshIsEmpty(cells: seq<Cell>)
    requires |cells| == STACK_LEN
    ensures Represents(RegInit(cells), [])
  {
  }

  /** The outcome that a value calls for. */
  function OutcomeOf(x: Res<Value>): Outcome
    requires x.Ok? ==> x.value.VInt?
  {
    if x.Bad? then x.o else if x.value.v != 0 then Accept else Reject
  }

  lemma ReturnTakes(env: Env, ret: Op, pc: nat, v: Value)
    requires env.Valid() && IsReturn(ret) && v.VInt?
    ensures Takes(env, Simple(ret), pc, [] + [v], Halt(OutcomeOf(Ok(v))))
  {
    TurnTaken(env, Simple(ret), pc, [] + [v], Halt(OutcomeOf(Ok(v))));
  }

  lemma ReturnEnds(env: Env, code: seq<byte>, pc: nat, r: Regs, x: Res<Value>, mid: nat, m: Regs, ret: Op)
    requires env.Valid() && Shaped(r) && Yields(env, code, pc, r, [], x, mid, m) && Placed(code, mid, [Simple(ret)])
    requires IsReturn(ret) && (x.Ok? ==> x.value.VInt?)
    ensures RegRun(env, code, pc, r) == OutcomeOf(x)
  {
    if x.Ok? {
      ReturnTakes(env, ret, mid, x.value);
      Halted(env, code, mid, Simple(ret), m, [] + [x.value], OutcomeOf(x));
      JoinsFails(env, code, pc, r, mid, m, OutcomeOf(x));
    }
    assert Ends(env, code, pc, r, RegRun(env, code, pc, r));
  }

  /** The interpreter accepts, rejects or fails as the value of the expression calls for, on every
      event on which that value stays inside the event, and on any contents of its fresh array. */
  lemma ExpressionMeaning(src: Source, e: Expr, ret: Op, env: Env, cells: seq<Cell>, code: seq<byte>)
    requires IsReturn(ret) && Spelled(e) && Len(e) < 0x1_0000
    requires code == Assemble(Program(e, ret)) && IsLinked(code, src)
    requires Sorted(src, e) && IsInt(Top(src, e)) && Depth(e) <= CAPACITY && |cells| == STACK_LEN
    requires Serves(env, src) && env.gids == FinalGids(code, src) && Eval(env, src.symtab, e) != Bad(Wild)
    ensures var x := Eval(env, src.symtab, e);
            && (x.Ok? ==> x.value.VInt?)
            && RegRun(env, FinalCode(code, src), 0, RegInit(cells)) == OutcomeOf(x)
  {
    LinkedExactly(src, e, ret);
    StoredFurnishes(env.gids, src, e, NONE);
    ProgramRuns(src, e, ret, env, cells, FinalCode(code, src), Outs(src, e, 0, 0));
  }

  lemma ProgramRuns(src: Source, e: Expr, ret: Op, env: Env, cells: seq<Cell>, code: seq<byte>, outs: seq<Insn>)
    requires IsReturn(ret) && outs == Outs(src, e, 0, 0) && AllEncodable(outs + [Simple(ret)])
    requires code == Assemble(outs + [Simple(ret)]) && Resolved(src, e) && Furnished(env.gids, src, e, 0)
    requires Sorted(src, e) && IsInt(Top(src, e)) && Depth(e) <= CAPACITY && |cells| == STACK_LEN
    requires Serves(env, src) && Eval(env, src.symtab, e) != Bad(Wild)
    ensures var x := Eval(env, src.symtab, e);
            (x.Ok? ==> x.value.VInt?) && RegRun(env, code, 0, RegInit(cells)) == OutcomeOf(x)
  {
    var x, r := Eval(env, src.symtab, e), RegInit(cells);
    OutsLength(src, e, 0, 0, outs, Len(e));
    WholePlaced(code, outs + [Simple(ret)]);
    ProgramPlaced(code, 0, outs, Simple(ret), outs + [Simple(ret)], Len(e), Len(e));
    FreshIsEmpty(cells);
    MakeReady(env, code, src, e, 0, 0, 0, x, Len(e), Top(src, e), outs);
    var m := Evaluated(env, code, src, e, 0, 0, r, [], x, Len(e), Top(src, e));
    ReturnEnds(env, code, 0, r, x, Len(e), m, ret);
  }

  lemma WholePlaced(code: seq<byte>, ins: seq<Insn>)
    requires AllEncodable(ins) && code == Assemble(ins)
    ensures Placed(code, 0, ins)
  {
    assert code == [] + Assemble(ins);
    AssembledPlaced(code, [], ins, 0);
  }

  lemma ProgramPlaced(code: seq<byte>, pc: nat, outs: seq<Insn>, ret: Insn, ins: seq<Insn>, n: nat, mid: nat)
    requires ins == outs + [ret] && n == Length(outs) && mid == pc + n && Placed(code, pc, ins)
    ensures Placed(code, pc, outs) && Placed(code, mid, [ret])
  {
    PlacedAppend(code, pc, outs, [ret], n);
  }
}
