/** What the comparators compute, told by the operands' values: the order of signed integers, the
    order of the texts as they are read, and the match of a pattern. */
module Comparisons {
  import opened Words
  import opened Opcodes
  import opened Validator
  import opened Interpreter
  import opened StringCompare
  import opened Registers
  import Glob

  predicate Related(c: CmpOp, x: int, y: int) {
    match c
    case EQ => x == y
    case NE => x != y
    case GT => x > y
    case LT => x < y
    case GE => x >= y
    case LE => x <= y
  }

  /** Equal, or the one up to its star at the start of the other. */
  ghost predicate ReadAlike(x: Reading, y: Reading) {
    x.text == y.text || (x.star && x.text <= y.text) || (y.star && y.text <= x.text)
  }

  ghost predicate TextRelated(c: CmpOp, x: Reading, y: Reading) {
    match c
    case EQ => ReadAlike(x, y)
    case NE => !ReadAlike(x, y)
    case GT => !ReadAlike(x, y) && LexLess(y.text, x.text)
    case LT => !ReadAlike(x, y) && LexLess(x.text, y.text)
    case GE => ReadAlike(x, y) || LexLess(y.text, x.text)
    case LE => ReadAlike(x, y) || LexLess(x.text, y.text)
  }

  lemma IntegerOrder(c: CmpOp, b: word, a: word)
    ensures Holds(c, Order(b, a)) <==> Related(c, Signed(b), Signed(a))
  {
  }

  lemma TextOrder(c: CmpOp, b: StrReg, a: StrReg)
    requires StrCmp(b, a).Some?
    ensures Holds(c, StrCmp(b, a).value) <==> TextRelated(c, ReadingOf(b, 0), ReadingOf(a, 0))
  {
    StrCmpOrders(b, 0, a, 0);
  }

  /** The literal loaded as a pattern is matched against the other operand, on whichever side it
      stands. */
  lemma PatternMatch(p: StrReg, s: StrReg)
    requires p.lit.GlobLiteral? && !s.lit.GlobLiteral?
    ensures GlobHolds(p, s) == GlobHolds(s, p)
    ensures !Glob.EndsWithTwoStars(Glob.Cut(p.data)) ==>
              (GlobHolds(p, s) <==> Glob.Matches(Glob.Cut(p.data), Glob.Cut(s.data)))
  {
    if !Glob.EndsWithTwoStars(Glob.Cut(p.data)) {
      Glob.LoopIsDeclarative(Glob.Cut(p.data), Glob.Cut(s.data));
    }
  }

  /** Both machines put a truth value in the place of the two operands. */
  ghost predicate Decides(env: Env, i: Insn, pc: nat, vs: seq<Value>, r: Regs, truth: bool)
    requires env.Valid() && |vs| >= 2 && Represents(r, vs)
  {
    var w := if truth then 1 else 0;
    && StepInsn(env, i, pc, vs) == Goto(pc + 1, vs[..|vs| - 2] + [VInt(w)])
    && var c := RegInsn(env, i, pc, r);
    && c.Go? && c.pc == pc + 1 && c.r.ax == Num(w) && Represents(c.r, vs[..|vs| - 2] + [VInt(w)])
  }

  lemma Decided(env: Env, i: Insn, pc: nat, vs: seq<Value>, r: Regs, truth: bool)
    requires env.Valid() && |vs| >= 2 && Represents(r, vs) && IsBinary(i.op) && !i.op.Bit?
    requires BinaryResult(i.op, Bx(vs), Ax(vs), StringOrder(Bx(vs), Ax(vs)), GlobOf(Bx(vs), Ax(vs))) ==
             Ok(VInt(if truth then 1 else 0))
    ensures Decides(env, i, pc, vs, r, truth)
  {
    var w := if truth then 1 else 0;
    assert SetAx(Pop(vs), VInt(w)) == vs[..|vs| - 2] + [VInt(w)];
    BinaryFollows(env, i, pc, r, vs);
    var v := vs[..|vs| - 2] + [VInt(w)];
    assert Keeps(RegInsn(env, i, pc, r).r, |v|, |v| - 1, v[|v| - 1]);
  }

  /** An integer comparator leaves 1 exactly when its operands, as signed integers, stand in its
      relation, and 0 otherwise, on values and in the registers. */
  lemma IntegersCompared(env: Env, c: CmpOp, pc: nat, vs: seq<Value>, r: Regs)
    requires env.Valid() && |vs| >= 2 && Bx(vs).VInt? && Ax(vs).VInt? && Represents(r, vs)
    ensures Decides(env, Insn(CmpS64(c), 0, []), pc, vs, r, Related(c, Signed(Bx(vs).v), Signed(Ax(vs).v)))
  {
    IntegerOrder(c, Bx(vs).v, Ax(vs).v);
    Decided(env, Insn(CmpS64(c), 0, []), pc, vs, r, Related(c, Signed(Bx(vs).v), Signed(Ax(vs).v)));
  }

  /** A text comparator does so for the order of its operands as read, wherever it stays inside them. */
  lemma TextsCompared(env: Env, c: CmpOp, pc: nat, vs: seq<Value>, r: Regs)
    requires env.Valid() && |vs| >= 2 && Bx(vs).VStr? && Ax(vs).VStr? && Represents(r, vs)
    requires StrCmp(Bx(vs).s, Ax(vs).s).Some?
    ensures var b, a := ReadingOf(Bx(vs).s, 0), ReadingOf(Ax(vs).s, 0);
            Decides(env, Insn(CmpString(c), 0, []), pc, vs, r, TextRelated(c, b, a))
  {
    var b, a := Bx(vs).s, Ax(vs).s;
    TextOrder(c, b, a);
    Decided(env, Insn(CmpString(c), 0, []), pc, vs, r, TextRelated(c, ReadingOf(b, 0), ReadingOf(a, 0)));
  }

  /** A pattern comparator does so for the match of its pattern, or for the lack of one. */
  lemma PatternCompared(env: Env, ne: bool, pc: nat, vs: seq<Value>, r: Regs, p: StrReg, s: StrReg)
    requires env.Valid() && |vs| >= 2 && Represents(r, vs) && p.lit.GlobLiteral? && !s.lit.GlobLiteral?
    requires (Bx(vs) == VStr(p) && Ax(vs) == VStr(s)) || (Bx(vs) == VStr(s) && Ax(vs) == VStr(p))
    requires !Glob.EndsWithTwoStars(Glob.Cut(p.data))
    ensures Decides(env, Insn(CmpGlob(ne), 0, []), pc, vs, r, Glob.Matches(Glob.Cut(p.data), Glob.Cut(s.data)) != ne)
  {
    PatternMatch(p, s);
    Decided(env, Insn(CmpGlob(ne), 0, []), pc, vs, r, Glob.Matches(Glob.Cut(p.data), Glob.Cut(s.data)) != ne);
  }
}
