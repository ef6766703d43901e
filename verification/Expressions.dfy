/** Filter expressions and their bytecode: which of them the validator accepts. */
module Expressions {
  import opened Words
  import opened Opcodes
  import opened Validator
  import opened Linked
  import opened Programs

  /** A constant, a text or a pattern in quotes, a field or a context by the offset of its name in
      the name table, an element of an array or sequence field, or a reference that a relocation
      has filled in. */
  datatype Leaf =
    | Constant(v: word)
    | Quoted(s: seq<byte>, glob: bool)
    | Named(ctx: bool, sym: nat)
    | Element(sym: nat, index: word)
    | Reference(ref: RefOp, arg: nat)

  datatype Expr =
    | Atom(x: Leaf)
    | Compare(c: CmpOp, l: Expr, r: Expr)
    | Combine(b: BitOp, l: Expr, r: Expr)
    | Apply(u: UnOp, e: Expr)
    | Invert(e: Expr)
    | Cast(e: Expr)
    | Logic(isOr: bool, l: Expr, r: Expr)

  // The bytecode

  function Simple(op: Op): Insn { Insn(op, 0, []) }

  function LeafCode(x: Leaf): seq<Insn> {
    match x
    case Constant(v) => [Insn(LoadS64, v, [])]
    case Quoted(s, glob) => [Insn(if glob then LoadStarGlob else LoadString, 0, s)]
    case Named(ctx, sym) =>
      [Simple(if ctx then GetContextRoot else GetPayloadRoot), Insn(GetSymbol, sym, []), Simple(LoadField)]
    case Element(sym, index) =>
      [Simple(GetPayloadRoot), Insn(GetSymbol, sym, []), Insn(GetIndexU64, index, []), Simple(LoadField)]
    case Reference(ref, arg) => [Insn(LoadRef(ref), arg, [])]
  }

  function LeafLen(x: Leaf): nat {
    match x
    case Constant(_) => 9
    case Quoted(s, _) => |s| + 2
    case Named(_, _) => 5
    case Element(_, _) => 14
    case Reference(_, _) => 3
  }

  /** The length of the bytecode in bytes. */
  function Len(e: Expr): (n: nat)
    ensures n >= 2
  {
    match e
    case Atom(x) => LeafLen(x)
    case Compare(_, l, r) => Len(l) + Len(r) + 1
    case Combine(_, l, r) => Len(l) + Len(r) + 1
    case Apply(_, e) => Len(e) + 1
    case Invert(e) => Len(e) + 1
    case Cast(e) => Len(e) + 1
    case Logic(_, l, r) => Len(l) + 3 + Len(r)
  }

  /** The instructions at an offset; an AND or OR skips its second operand. */
  function Compile(e: Expr, pc: nat): seq<Insn> {
    match e
    case Atom(x) => LeafCode(x)
    case Compare(c, l, r) => Compile(l, pc) + (Compile(r, pc + Len(l)) + [Simple(Cmp(c))])
    case Combine(b, l, r) => Compile(l, pc) + (Compile(r, pc + Len(l)) + [Simple(Bit(b))])
    case Apply(u, e) => Compile(e, pc) + [Simple(Unary(u))]
    case Invert(e) => Compile(e, pc) + [Simple(BitNot)]
    case Cast(e) => Compile(e, pc) + [Simple(CastToS64)]
    case Logic(isOr, l, r) => Compile(l, pc) + ([Skip(isOr, l, r, pc)] + Compile(r, pc + Len(l) + 3))
  }

  function Skip(isOr: bool, l: Expr, r: Expr, pc: nat): Insn {
    Insn(Logical(isOr), pc + Len(l) + 3 + Len(r), [])
  }

  // Typing

  /** What is known of an expression's type before its fields are looked up. */
  function TypeOf(e: Expr): RegType {
    match e
    case Atom(Constant(_)) => S64
    case Atom(Quoted(_, glob)) => if glob then StarGlob else Str
    case Atom(Named(_, _)) => Unknown
    case Atom(Element(_, _)) => Unknown
    case Atom(Reference(ref, _)) => if ref == FieldS64 || ref == ContextS64 then S64 else Str
    case Compare(_, _, _) => S64
    case Combine(_, _, _) => U64
    case Apply(u, e) => if u == Not then TypeOf(e) else Unknown
    case Invert(_) => U64
    case Cast(_) => S64
    case Logic(_, l, _) => TypeOf(l)
  }

  predicate MayBeNumber(t: RegType) { t == S64 || t == U64 || t == Unknown }

  /** A type that is not known goes with any other; of the known ones numbers go with numbers, texts
      with texts, and a text and a pattern with each other for equality. */
  predicate Comparable(c: CmpOp, t: RegType, u: RegType) {
    || t == Unknown || u == Unknown
    || ((t == S64 || t == U64) && (u == S64 || u == U64))
    || (t == Str && u == Str)
    || ({t, u} == {Str, StarGlob} && (c == EQ || c == NE))
  }

  predicate WellTyped(e: Expr) {
    match e
    case Atom(_) => true
    case Compare(c, l, r) => WellTyped(l) && WellTyped(r) && Comparable(c, TypeOf(l), TypeOf(r))
    case Combine(_, l, r) =>
      WellTyped(l) && WellTyped(r) && MayBeNumber(TypeOf(l)) && MayBeNumber(TypeOf(r))
    case Apply(_, e) => WellTyped(e) && MayBeNumber(TypeOf(e))
    case Invert(e) => WellTyped(e) && MayBeNumber(TypeOf(e))
    case Cast(e) => WellTyped(e) && TypeOf(e) == S64
    case Logic(_, l, r) =>
      WellTyped(l) && WellTyped(r) && TypeOf(l) == TypeOf(r) && (TypeOf(l) == S64 || TypeOf(l) == U64)
  }

  function Max(a: nat, b: nat): nat { if a >= b then a else b }

  /** The stack that evaluating an expression takes. */
  function Depth(e: Expr): (n: nat)
    ensures n >= 1
  {
    match e
    case Atom(_) => 1
    case Compare(_, l, r) => Max(Depth(l), 1 + Depth(r))
    case Combine(_, l, r) => Max(Depth(l), 1 + Depth(r))
    case Apply(_, e) => Depth(e)
    case Invert(e) => Depth(e)
    case Cast(e) => Depth(e)
    case Logic(_, l, r) => Max(Depth(l), Depth(r))
  }

  // The validator over a list

  /** The check at a jump target, which the validator makes before the next instruction. */
  function Settle(st: VState): Option<VState> {
    if st.pc in st.mp && st.mp[st.pc] != st.stack then None else Some(st.(mp := st.mp - {st.pc}))
  }

  /** The state behind instructions that do not return; None if one of them is rejected. */
  function Validated(ins: seq<Insn>, st: VState): Option<VState>
    decreases |ins|, 2
  {
    match Settle(st) case None => None case Some(s) => Continued(ins, s)
  }

  function Continued(ins: seq<Insn>, s: VState): Option<VState>
    decreases |ins|, 1
  {
    if ins == [] then Some(s) else Executed(ins, s)
  }

  function Executed(ins: seq<Insn>, s: VState): Option<VState>
    requires ins != []
    decreases |ins|, 0
  {
    if VInsn(ins[0], s).Next? then Validated(ins[1..], VInsn(ins[0], s).st) else None
  }

  lemma SettledFirst(i: Insn, st: VState)
    ensures VInsn(i, st) == match Settle(st) case None => Rejected case Some(s) => VInsn(i, s)
  {
    assert st.mp - {st.pc} - {st.pc} == st.mp - {st.pc};
  }

  lemma ValidatedTurn(ins: seq<Insn>, st: VState)
    requires ins != []
    ensures Validated(ins, st) == if VInsn(ins[0], st).Next? then Validated(ins[1..], VInsn(ins[0], st).st) else None
  {
    SettledFirst(ins[0], st);
    if Settle(st).Some? {
      var s := Settle(st).value;
      assert Continued(ins, s) == Executed(ins, s);
    }
  }

  lemma {:induction false} ValidatedAppend(a: seq<Insn>, b: seq<Insn>, st: VState)
    ensures Validated(a + b, st) == match Validated(a, st) case None => None case Some(s) => Validated(b, s)
    decreases |a|
  {
    if a == [] {
      assert a + b == b;
      if Settle(st).Some? {
        var s := Settle(st).value;
        assert s.mp - {s.pc} == s.mp;
        assert Settle(s) == Some(s) && Validated(a, st) == Continued(a, s);
      }
    } else {
      ValidatedTurn(a, st);
      ValidatedTurn(a + b, st);
      assert (a + b)[1..] == a[1..] + b;
      if VInsn(a[0], st).Next? {
        ValidatedAppend(a[1..], b, VInsn(a[0], st).st);
      }
    }
  }

  /** One instruction, and what follows. */
  lemma FirstOf(i: Insn, b: seq<Insn>, st: VState)
    ensures Validated([i] + b, st) == if VInsn(i, st).Next? then Validated(b, VInsn(i, st).st) else None
  {
    ValidatedTurn([i] + b, st);
    assert ([i] + b)[1..] == b;
  }

  lemma ValidatedOne(i: Insn, st: VState)
    ensures Validated([i], st) == if VInsn(i, st).Next? then Settle(VInsn(i, st).st) else None
  {
    ValidatedTurn([i], st);
    if VInsn(i, st).Next? && Settle(VInsn(i, st).st).Some? {
      assert Continued([], Settle(VInsn(i, st).st).value) == Settle(VInsn(i, st).st);
    }
  }

  /** A value of type t above s at the end of some code, if all is well up to there. */
  function Landed(ok: bool, end: nat, s: seq<RegType>, t: RegType, mp: MergeTable): Option<VState> {
    if ok && (end in mp ==> mp[end] == s + [t]) then Some(VState(end, s + [t], mp - {end})) else None
  }

  lemma LandedClear(ok: bool, end: nat, s: seq<RegType>, t: RegType, mp: MergeTable)
    requires end !in mp
    ensures Landed(ok, end, s, t, mp) == if ok then Some(VState(end, s + [t], mp)) else None
  {
    assert mp - {end} == mp;
  }

  lemma LandedIf(ok: bool, ok': bool, end: nat, s: seq<RegType>, t: RegType, mp: MergeTable)
    ensures (if ok then Landed(ok', end, s, t, mp) else None) == Landed(ok && ok', end, s, t, mp)
  {
  }

  /** No jump leads to what lies between two offsets. */
  ghost predicate Clear(mp: MergeTable, from: nat, end: nat) { forall k :: k in mp ==> !(from <= k < end) }

  predicate Straight(op: Op) { !op.Logical? && !op.Return? && !op.ReturnS64? }

  /** An instruction away from jumps. */
  lemma StraightTurn(i: Insn, st: VState)
    requires Straight(i.op) && st.pc !in st.mp
    ensures VInsn(i, st) ==
            if ContextOk(i, st.pc, st.stack) && Exec(i.op, st.stack).Some?
            then Next(VState(st.pc + Size(i), Exec(i.op, st.stack).value, st.mp)) else Rejected
  {
    assert st.mp - {st.pc} == st.mp;
  }

  lemma OneLands(i: Insn, st: VState, ok: bool, end: nat, s: seq<RegType>, t: RegType, r: VResult)
    requires VInsn(i, st) == r && r == if ok then Next(VState(end, s + [t], st.mp)) else Rejected
    ensures Validated([i], st) == Landed(ok, end, s, t, st.mp)
  {
    ValidatedOne(i, st);
    assert Settle(VState(end, s + [t], st.mp)) == Landed(true, end, s, t, st.mp);
  }

  /** An instruction that leaves a value of type t above s. */
  lemma Concludes(i: Insn, st: VState, ok: bool, end: nat, s: seq<RegType>, t: RegType)
    requires Straight(i.op) && st.pc !in st.mp && end == st.pc + Size(i)
    requires ContextOk(i, st.pc, st.stack) && Exec(i.op, st.stack).Some? <==> ok
    requires ok ==> Exec(i.op, st.stack) == Some(s + [t])
    ensures Validated([i], st) == Landed(ok, end, s, t, st.mp)
  {
    StraightTurn(i, st);
    OneLands(i, st, ok, end, s, t, VInsn(i, st));
  }

  /** One list after another. */
  lemma Sequel(a: seq<Insn>, b: seq<Insn>, st: VState, mid: VState, ok: bool, s: seq<RegType>, t: RegType,
               r: Option<VState>)
    requires Validated(a, st) == Landed(ok, mid.pc, s, t, mid.mp) && mid.pc !in mid.mp && mid.stack == s + [t]
    requires r == if ok then Validated(b, mid) else None
    ensures Validated(a + b, st) == r
  {
    ValidatedAppend(a, b, st);
    LandedClear(ok, mid.pc, s, t, mid.mp);
  }

  /** One instruction, and a list after it. */
  lemma Onwards(i: Insn, b: seq<Insn>, st: VState, mid: VState, ok: bool, r: Option<VState>)
    requires Straight(i.op) && st.pc !in st.mp && mid.pc == st.pc + Size(i) && mid.mp == st.mp
    requires ContextOk(i, st.pc, st.stack) && Exec(i.op, st.stack).Some? <==> ok
    requires ok ==> Exec(i.op, st.stack) == Some(mid.stack)
    requires r == if ok then Validated(b, mid) else None
    ensures Validated([i] + b, st) == r
  {
    FirstOf(i, b, st);
    StraightTurn(i, st);
  }

  // Leaves

  lemma LoadLands(st: VState, s: seq<RegType>, end: nat)
    requires st.pc !in st.mp && st.stack == s + [Ptr] && end == st.pc + 1
    ensures Validated([Simple(LoadField)], st) == Landed(true, end, s, Unknown, st.mp)
  {
    assert SetAx(st.stack, Unknown) == s + [Unknown];
    Concludes(Simple(LoadField), st, true, end, s, Unknown);
  }

  /** A name or an index on a pointer. */
  lemma PointerOn(i: Insn, b: seq<Insn>, st: VState, mid: VState, s: seq<RegType>, r: Option<VState>)
    requires (i.op.GetSymbol? || i.op.GetIndexU64?) && st.pc !in st.mp && st.stack == s + [Ptr]
    requires mid == st.(pc := st.pc + Size(i)) && r == Validated(b, mid)
    ensures Validated([i] + b, st) == r
  {
    Onwards(i, b, st, mid, true, r);
  }

  lemma RootOn(root: Insn, b: seq<Insn>, st: VState, mid: VState, ok: bool, r: Option<VState>)
    requires (root == Simple(GetContextRoot) || root == Simple(GetPayloadRoot)) && st.pc !in st.mp
    requires mid == VState(st.pc + 1, st.stack + [Ptr], st.mp) && ok == (|st.stack| + 1 <= STACK_LEN)
    requires r == if ok then Validated(b, mid) else None
    ensures Validated([root] + b, st) == r
  {
    Onwards(root, b, st, mid, ok, r);
  }

  lemma NamedLands(root: Insn, i: Insn, j: Insn, st: VState, ok: bool, end: nat)
    requires root == Simple(GetContextRoot) || root == Simple(GetPayloadRoot)
    requires i.op.GetSymbol? && j == Simple(LoadField)
    requires end == st.pc + 5 && Clear(st.mp, st.pc, end) && ok == (|st.stack| + 1 <= STACK_LEN)
    ensures Validated([root] + ([i] + [j]), st) == Landed(ok, end, st.stack, Unknown, st.mp)
  {
    var at, named := VState(st.pc + 1, st.stack + [Ptr], st.mp), VState(st.pc + 4, st.stack + [Ptr], st.mp);
    LoadLands(named, st.stack, end);
    PointerOn(i, [j], at, named, st.stack, Validated([j], named));
    RootOn(root, [i] + [j], st, at, ok, if ok then Validated([j], named) else None);
  }

  lemma ElementLands(root: Insn, i: Insn, k: Insn, j: Insn, st: VState, ok: bool, end: nat)
    requires root == Simple(GetPayloadRoot) && i.op.GetSymbol? && k.op.GetIndexU64? && j == Simple(LoadField)
    requires end == st.pc + 14 && Clear(st.mp, st.pc, end) && ok == (|st.stack| + 1 <= STACK_LEN)
    ensures Validated([root] + ([i] + ([k] + [j])), st) == Landed(ok, end, st.stack, Unknown, st.mp)
  {
    var at, named := VState(st.pc + 1, st.stack + [Ptr], st.mp), VState(st.pc + 4, st.stack + [Ptr], st.mp);
    var indexed := VState(st.pc + 13, st.stack + [Ptr], st.mp);
    LoadLands(indexed, st.stack, end);
    var r := Validated([j], indexed);
    PointerOn(k, [j], named, indexed, st.stack, r);
    PointerOn(i, [k] + [j], at, named, st.stack, r);
    RootOn(root, [i] + ([k] + [j]), st, at, ok, if ok then r else None);
  }

  lemma LeafLands(x: Leaf, st: VState, end: nat)
    requires end == st.pc + LeafLen(x) && Clear(st.mp, st.pc, end)
    ensures Validated(LeafCode(x), st) == Landed(|st.stack| + 1 <= STACK_LEN, end, st.stack, TypeOf(Atom(x)), st.mp)
  {
    var code := LeafCode(x);
    match x
    case Named(_, _) =>
      assert code == [code[0]] + ([code[1]] + [code[2]]);
      NamedLands(code[0], code[1], code[2], st, |st.stack| + 1 <= STACK_LEN, end);
    case Element(_, _) =>
      assert code == [code[0]] + ([code[1]] + ([code[2]] + [code[3]]));
      ElementLands(code[0], code[1], code[2], code[3], st, |st.stack| + 1 <= STACK_LEN, end);
    case _ =>
      Concludes(code[0], st, |st.stack| + 1 <= STACK_LEN, end, st.stack, TypeOf(Atom(x)));
  }

  // Operators

  lemma UnaryLands(a: seq<Insn>, i: Insn, st: VState, mid: VState, ok: bool, t: RegType, good: bool, u: RegType,
                   end: nat)
    requires Validated(a, st) == Landed(ok, mid.pc, st.stack, t, st.mp) && mid == VState(mid.pc, st.stack + [t], st.mp)
    requires mid.pc !in st.mp && end == mid.pc + 1 && Size(i) == 1
    requires match i.op
             case Unary(op) => good == MayBeNumber(t) && u == if op == Not then t else Unknown
             case BitNot => good == MayBeNumber(t) && u == U64
             case CastToS64 => good == (t == S64) && u == S64
             case _ => false
    ensures Validated(a + [i], st) == Landed(ok && good, end, st.stack, u, st.mp)
  {
    assert SetAx(mid.stack, u) == st.stack + [u];
    Concludes(i, mid, good, end, st.stack, u);
    Sequel(a, [i], st, mid, ok, st.stack, t, if ok then Validated([i], mid) else None);
  }

  lemma OperatorLands(i: Insn, st: VState, s: seq<RegType>, t: RegType, u: RegType, good: bool, v: RegType, end: nat)
    requires st.stack == s + [t] + [u] && t != Ptr && u != Ptr && st.pc !in st.mp && end == st.pc + 1 && Size(i) == 1
    requires match i.op
             case Cmp(c) => good == Comparable(c, t, u) && v == S64
             case Bit(_) => good == (MayBeNumber(t) && MayBeNumber(u)) && v == U64
             case _ => false
    ensures Validated([i], st) == Landed(good, end, s, v, st.mp)
  {
    assert SetAx(Pop(st.stack), v) == s + [v];
    ComparableIsChecked(i.op, t, u);
    Concludes(i, st, good, end, s, v);
  }

  lemma ComparableIsChecked(op: Op, t: RegType, u: RegType)
    requires t != Ptr && u != Ptr
    ensures op.Cmp? ==> (CompareOk(u, t, op.c) <==> Comparable(op.c, t, u))
  {
  }

  lemma OperandLands(b: seq<Insn>, i: Insn, mid: VState, last: VState, s: seq<RegType>, ok: bool, t: RegType,
                     u: RegType, good: bool, v: RegType, end: nat)
    requires Validated(b, mid) == Landed(ok, last.pc, mid.stack, u, mid.mp) && mid.stack == s + [t]
    requires last == VState(last.pc, mid.stack + [u], mid.mp) && last.pc !in mid.mp
    requires end == last.pc + 1 && Size(i) == 1 && t != Ptr && u != Ptr
    requires match i.op
             case Cmp(c) => good == Comparable(c, t, u) && v == S64
             case Bit(_) => good == (MayBeNumber(t) && MayBeNumber(u)) && v == U64
             case _ => false
    ensures Validated(b + [i], mid) == Landed(ok && good, end, s, v, mid.mp)
  {
    OperatorLands(i, last, s, t, u, good, v, end);
    Sequel(b, [i], mid, last, ok, mid.stack, u, if ok then Landed(good, end, s, v, mid.mp) else None);
    LandedIf(ok, good, end, s, v, mid.mp);
  }

  lemma BinaryLands(a: seq<Insn>, b: seq<Insn>, st: VState, mid: VState, ok: bool, ok': bool, t: RegType, v: RegType,
                    end: nat)
    requires Validated(a, st) == Landed(ok, mid.pc, st.stack, t, st.mp) && mid == VState(mid.pc, st.stack + [t], st.mp)
    requires Validated(b, mid) == Landed(ok', end, st.stack, v, st.mp) && mid.pc !in st.mp
    ensures Validated(a + b, st) == Landed(ok && ok', end, st.stack, v, st.mp)
  {
    Sequel(a, b, st, mid, ok, st.stack, t, if ok then Landed(ok', end, st.stack, v, st.mp) else None);
    LandedIf(ok, ok', end, st.stack, v, st.mp);
  }

  /** AND and OR, whose second operand is checked against the first at the common end. */
  lemma SkipOn(i: Insn, b: seq<Insn>, st: VState, s: seq<RegType>, t: RegType, mid: VState, end: nat, r: Option<VState>)
    requires i.op.Logical? && i.arg == end && Size(i) == 3 && st.pc !in st.mp && st.pc < end
    requires st.stack == s + [t] && mid == VState(st.pc + 3, s, st.mp[end := st.stack])
    requires r == if IsInt(t) && (end in st.mp ==> st.mp[end] == st.stack) then Validated(b, mid) else None
    ensures Validated([i] + b, st) == r
  {
    FirstOf(i, b, st);
    assert Pop(st.stack) == s && st.mp - {st.pc} == st.mp;
    assert end in st.mp && st.mp[end] == st.stack ==> st.mp[end := st.stack] == st.mp;
  }

  lemma Rejoins(ok: bool, end: nat, s: seq<RegType>, t: RegType, u: RegType, mp: MergeTable, mp': MergeTable)
    requires mp' == mp[end := s + [t]]
    ensures (if IsInt(t) && (end in mp ==> mp[end] == s + [t]) then Landed(ok, end, s, u, mp') else None) ==
            Landed(ok && IsInt(t) && t == u, end, s, t, mp)
  {
    assert t != u ==> s + [t] != s + [u] by {
      assert (s + [t])[|s|] == t && (s + [u])[|s|] == u;
    }
    assert mp' - {end} == mp - {end};
  }

  lemma SkipLands(i: Insn, b: seq<Insn>, jump: VState, mid: VState, ok: bool, s: seq<RegType>, t: RegType, u: RegType,
                  end: nat)
    requires i.op.Logical? && i.arg == end && Size(i) == 3 && jump.pc !in jump.mp && jump.pc < end
    requires jump.stack == s + [t] && mid == VState(jump.pc + 3, s, jump.mp[end := jump.stack])
    requires Validated(b, mid) == Landed(ok, end, s, u, mid.mp)
    ensures Validated([i] + b, jump) == Landed(ok && IsInt(t) && t == u, end, s, t, jump.mp)
  {
    var r := if IsInt(t) && (end in jump.mp ==> jump.mp[end] == jump.stack) then Validated(b, mid) else None;
    SkipOn(i, b, jump, s, t, mid, end, r);
    Rejoins(ok, end, s, t, u, jump.mp, mid.mp);
  }

  // Expressions

  /** Well typed, with room for it above n entries. */
  predicate Fine(e: Expr, n: nat) { WellTyped(e) && n + Depth(e) <= STACK_LEN }

  /** The validator lands behind an expression with a value of its type exactly when the expression
      is well typed, the stack has room for it, and a jump to its end agrees. */
  ghost predicate Exact(e: Expr, st: VState) {
    Validated(Compile(e, st.pc), st) == Landed(Fine(e, |st.stack|), st.pc + Len(e), st.stack, TypeOf(e), st.mp)
  }

  lemma NoPointer(e: Expr)
    ensures TypeOf(e) != Ptr
  {
  }

  lemma LogicExact(a: seq<Insn>, i: Insn, b: seq<Insn>, st: VState, jump: VState, mid: VState, ok: bool, ok': bool,
                   t: RegType, u: RegType, end: nat)
    requires Validated(a, st) == Landed(ok, jump.pc, st.stack, t, st.mp)
    requires jump == VState(jump.pc, st.stack + [t], st.mp)
    requires i.op.Logical? && i.arg == end && Size(i) == 3 && jump.pc !in st.mp && jump.pc < end
    requires mid == VState(jump.pc + 3, st.stack, st.mp[end := jump.stack])
    requires Validated(b, mid) == Landed(ok', end, st.stack, u, mid.mp)
    ensures Validated(a + ([i] + b), st) == Landed(ok && (ok' && IsInt(t) && t == u), end, st.stack, t, st.mp)
  {
    SkipLands(i, b, jump, mid, ok', st.stack, t, u, end);
    BinaryLands(a, [i] + b, st, jump, ok, ok' && IsInt(t) && t == u, t, t, end);
  }

  lemma {:induction false} ExpressionExact(e: Expr, st: VState)
    requires Clear(st.mp, st.pc, st.pc + Len(e))
    ensures Exact(e, st)
    decreases e, 1
  {
    match e
    case Atom(x) => LeafLands(x, st, st.pc + LeafLen(x));
    case Compare(_, _, _) => CompareExact(e, st);
    case Combine(_, _, _) => CombineExact(e, st);
    case Logic(_, _, _) => JoinExact(e, st);
    case _ => UnaryExact(e, st);
  }

  lemma {:induction false} UnaryExact(e: Expr, st: VState)
    requires (e.Apply? || e.Invert? || e.Cast?) && Clear(st.mp, st.pc, st.pc + Len(e))
    ensures Exact(e, st)
    decreases e, 0
  {
    var f := e.e;
    var i := match e case Apply(u, _) => Simple(Unary(u)) case Invert(_) => Simple(BitNot) case _ => Simple(CastToS64);
    var good := if e.Cast? then TypeOf(f) == S64 else MayBeNumber(TypeOf(f));
    ExpressionExact(f, st);
    UnaryLands(Compile(f, st.pc), i, st, VState(st.pc + Len(f), st.stack + [TypeOf(f)], st.mp), Fine(f, |st.stack|),
               TypeOf(f), good, TypeOf(e), st.pc + Len(e));
  }

  /** The second operand and the operator. */
  lemma {:induction false} OperandExact(r: Expr, i: Insn, mid: VState, s: seq<RegType>, t: RegType, good: bool,
                                        v: RegType)
    requires Exact(r, mid) && mid.stack == s + [t] && t != Ptr && Size(i) == 1 && mid.pc + Len(r) !in mid.mp
    requires match i.op
             case Cmp(c) => good == Comparable(c, t, TypeOf(r)) && v == S64
             case Bit(_) => good == (MayBeNumber(t) && MayBeNumber(TypeOf(r))) && v == U64
             case _ => false
    ensures Validated(Compile(r, mid.pc) + [i], mid) ==
            Landed(Fine(r, |mid.stack|) && good, mid.pc + Len(r) + 1, s, v, mid.mp)
  {
    NoPointer(r);
    OperandLands(Compile(r, mid.pc), i, mid, VState(mid.pc + Len(r), mid.stack + [TypeOf(r)], mid.mp), s,
                 Fine(r, |mid.stack|), t, TypeOf(r), good, v, mid.pc + Len(r) + 1);
  }

  lemma {:induction false} CompareExact(e: Expr, st: VState)
    requires e.Compare? && Clear(st.mp, st.pc, st.pc + Len(e))
    ensures Exact(e, st)
    decreases e, 0
  {
    var l, r, t, u := e.l, e.r, TypeOf(e.l), TypeOf(e.r);
    var mid, good := VState(st.pc + Len(l), st.stack + [t], st.mp), Comparable(e.c, t, u);
    ExpressionExact(l, st);
    ExpressionExact(r, mid);
    NoPointer(l);
    OperandExact(r, Simple(Cmp(e.c)), mid, st.stack, t, good, S64);
    BinaryLands(Compile(l, st.pc), Compile(r, mid.pc) + [Simple(Cmp(e.c))], st, mid, Fine(l, |st.stack|),
                Fine(r, |mid.stack|) && good, t, S64, st.pc + Len(e));
  }

  lemma {:induction false} CombineExact(e: Expr, st: VState)
    requires e.Combine? && Clear(st.mp, st.pc, st.pc + Len(e))
    ensures Exact(e, st)
    decreases e, 0
  {
    var l, r, t, u := e.l, e.r, TypeOf(e.l), TypeOf(e.r);
    var mid, good := VState(st.pc + Len(l), st.stack + [t], st.mp), MayBeNumber(t) && MayBeNumber(u);
    ExpressionExact(l, st);
    ExpressionExact(r, mid);
    NoPointer(l);
    OperandExact(r, Simple(Bit(e.b)), mid, st.stack, t, good, U64);
    BinaryLands(Compile(l, st.pc), Compile(r, mid.pc) + [Simple(Bit(e.b))], st, mid, Fine(l, |st.stack|),
                Fine(r, |mid.stack|) && good, t, U64, st.pc + Len(e));
  }

  lemma {:induction false} JoinExact(e: Expr, st: VState)
    requires e.Logic? && Clear(st.mp, st.pc, st.pc + Len(e))
    ensures Exact(e, st)
    decreases e, 0
  {
    var l, r, end := e.l, e.r, st.pc + Len(e);
    var jump := VState(st.pc + Len(l), st.stack + [TypeOf(l)], st.mp);
    var mid := VState(st.pc + Len(l) + 3, st.stack, st.mp[end := jump.stack]);
    ExpressionExact(l, st);
    ExpressionExact(r, mid);
    LogicExact(Compile(l, st.pc), Skip(e.isOr, l, r, st.pc), Compile(r, mid.pc), st, jump, mid, Fine(l, |st.stack|),
               Fine(r, |st.stack|), TypeOf(l), TypeOf(r), end);
  }

  // Whole programs

  ghost predicate AllInRange(ins: seq<Insn>, symtab: seq<byte>) {
    forall k :: 0 <= k < |ins| ==> InRange(Some(ins[k]), symtab)
  }

  predicate AllGoOn(ins: seq<Insn>) { forall k :: 0 <= k < |ins| ==> !IsReturn(ins[k].op) }

  /** Instructions that go on, and a return. */
  lemma {:induction false} PassesExactly(a: seq<Insn>, ret: Insn, symtab: seq<byte>, st: VState)
    requires AllGoOn(a) && IsReturn(ret.op)
    ensures Passes(a + [ret], symtab, st) <==>
              && AllInRange(a, symtab)
              && var s := Validated(a, st); s.Some? && ReturnOk(ret.op, s.value.stack) && s.value.mp == map[]
    decreases |a|
  {
    if a == [] {
      assert a + [ret] == [ret];
      assert Settle(st).Some? ==> Continued(a, Settle(st).value) == Settle(st);
    } else {
      var ins, rest := a + [ret], a[1..];
      assert ins[0] == a[0] && ins[1..] == rest + [ret];
      ValidatedTurn(a, st);
      assert AllInRange(a, symtab) <==> InRange(Some(a[0]), symtab) && AllInRange(rest, symtab) by {
        assert a == [a[0]] + rest;
      }
      if VInsn(a[0], st).Next? {
        PassesExactly(rest, ret, symtab, VInsn(a[0], st).st);
      }
    }
  }

  /** The names of an expression stand in the name table. */
  predicate NamesIn(symtab: seq<byte>, e: Expr) {
    match e
    case Atom(x) => x.Named? || x.Element? ==> SymbolAt(symtab, x.sym).Some?
    case Compare(_, l, r) => NamesIn(symtab, l) && NamesIn(symtab, r)
    case Combine(_, l, r) => NamesIn(symtab, l) && NamesIn(symtab, r)
    case Apply(_, e) => NamesIn(symtab, e)
    case Invert(e) => NamesIn(symtab, e)
    case Cast(e) => NamesIn(symtab, e)
    case Logic(_, l, r) => NamesIn(symtab, l) && NamesIn(symtab, r)
  }

  /** Its operands fit their encodings. */
  predicate Spelled(e: Expr) {
    match e
    case Atom(Quoted(s, _)) => forall k :: 0 <= k < |s| ==> s[k] != 0
    case Atom(Named(_, sym)) => sym < 0x1_0000
    case Atom(Element(sym, _)) => sym < 0x1_0000
    case Atom(Reference(_, arg)) => arg < 0x1_0000
    case Atom(Constant(_)) => true
    case Compare(_, l, r) => Spelled(l) && Spelled(r)
    case Combine(_, l, r) => Spelled(l) && Spelled(r)
    case Apply(_, e) => Spelled(e)
    case Invert(e) => Spelled(e)
    case Cast(e) => Spelled(e)
    case Logic(_, l, r) => Spelled(l) && Spelled(r)
  }

  /** What holds of a single instruction of the bytecode: it goes on, has its names in range if they
      are, and can be encoded if it can be spelled and its jump fits. */
  ghost predicate Sound(ins: seq<Insn>, symtab: seq<byte>, named: bool, spelled: bool) {
    AllGoOn(ins) && (AllInRange(ins, symtab) <==> named) && (spelled ==> AllEncodable(ins))
  }

  lemma SoundAppend(a: seq<Insn>, b: seq<Insn>, symtab: seq<byte>, named: bool, named': bool, spelled: bool,
                    spelled': bool)
    requires Sound(a, symtab, named, spelled) && Sound(b, symtab, named', spelled')
    ensures Sound(a + b, symtab, named && named', spelled && spelled')
  {
    var ab := a + b;
    assert forall k :: 0 <= k < |a| ==> ab[k] == a[k];
    assert forall k :: 0 <= k < |b| ==> ab[|a| + k] == b[k];
    assert forall k :: |a| <= k < |ab| ==> ab[k] == b[k - |a|];
  }

  lemma SoundOne(i: Insn, symtab: seq<byte>, spelled: bool)
    requires !IsReturn(i.op) && !i.op.GetSymbol? && (spelled ==> Encodable(i))
    ensures Sound([i], symtab, true, spelled)
  {
  }

  lemma Operands()
    ensures Pow256(0) == 1 && Pow256(2) == 0x1_0000 && Pow256(8) == MODULUS
  {
    assert Pow256(4) == 0x1_0000_0000;
    assert Pow256(6) == 0x1_0000_0000_0000;
  }

  lemma NameSound(i: Insn, symtab: seq<byte>, named: bool, spelled: bool)
    requires i.op.GetSymbol? && i.str == [] && named == SymbolAt(symtab, i.arg).Some? && spelled == (i.arg < 0x1_0000)
    ensures Sound([i], symtab, named, spelled)
  {
    Operands();
    assert AllInRange([i], symtab) <==> InRange(Some([i][0]), symtab);
  }

  lemma AccessSound(root: Insn, i: Insn, rest: seq<Insn>, symtab: seq<byte>, named: bool, spelled: bool)
    requires Sound([root], symtab, true, true) && Sound(rest, symtab, true, true)
    requires Sound([i], symtab, named, spelled)
    ensures Sound([root] + ([i] + rest), symtab, named, spelled)
  {
    SoundAppend([i], rest, symtab, named, true, spelled, true);
    SoundAppend([root], [i] + rest, symtab, true, named, true, spelled);
  }

  lemma NamedSound(root: Insn, i: Insn, j: Insn, symtab: seq<byte>, named: bool, spelled: bool)
    requires root == Simple(GetContextRoot) || root == Simple(GetPayloadRoot)
    requires i.op.GetSymbol? && i.str == [] && j == Simple(LoadField)
    requires named == SymbolAt(symtab, i.arg).Some? && spelled == (i.arg < 0x1_0000)
    ensures Sound([root] + ([i] + [j]), symtab, named, spelled)
  {
    PlainSound(root, symtab);
    NameSound(i, symtab, named, spelled);
    PlainSound(j, symtab);
    AccessSound(root, i, [j], symtab, named, spelled);
  }

  lemma ElementSound(root: Insn, i: Insn, k: Insn, j: Insn, symtab: seq<byte>, named: bool, spelled: bool)
    requires root == Simple(GetPayloadRoot) && i.op.GetSymbol? && i.str == [] && j == Simple(LoadField)
    requires k.op.GetIndexU64? && k.str == [] && k.arg < MODULUS
    requires named == SymbolAt(symtab, i.arg).Some? && spelled == (i.arg < 0x1_0000)
    ensures Sound([root] + ([i] + ([k] + [j])), symtab, named, spelled)
  {
    PlainSound(root, symtab);
    NameSound(i, symtab, named, spelled);
    PlainSound(j, symtab);
    Operands();
    SoundOne(k, symtab, true);
    SoundAppend([k], [j], symtab, true, true, true, true);
    AccessSound(root, i, [k] + [j], symtab, named, spelled);
  }

  lemma LeafSound(x: Leaf, symtab: seq<byte>, named: bool, spelled: bool)
    requires named == NamesIn(symtab, Atom(x)) && spelled == Spelled(Atom(x))
    ensures Sound(LeafCode(x), symtab, named, spelled)
  {
    var code := LeafCode(x);
    match x
    case Named(_, _) =>
      assert code == [code[0]] + ([code[1]] + [code[2]]);
      NamedSound(code[0], code[1], code[2], symtab, named, spelled);
    case Element(_, _) =>
      assert code == [code[0]] + ([code[1]] + ([code[2]] + [code[3]]));
      ElementSound(code[0], code[1], code[2], code[3], symtab, named, spelled);
    case _ =>
      Operands();
      SoundOne(code[0], symtab, spelled);
  }

  lemma PlainSound(i: Insn, symtab: seq<byte>)
    requires i == Simple(i.op) && !IsReturn(i.op) && HasByte(i.op) && !IsStringOp(i.op) && !i.op.GetSymbol?
    ensures Sound([i], symtab, true, true)
  {
    assert Pow256(OperandSize(i.op)) >= 1;
    SoundOne(i, symtab, true);
  }

  lemma OperatorSound(a: seq<Insn>, b: seq<Insn>, i: Insn, symtab: seq<byte>, named: bool, named': bool, spelled: bool,
                      spelled': bool)
    requires Sound(a, symtab, named, spelled) && Sound(b, symtab, named', spelled') && Sound([i], symtab, true, true)
    ensures Sound(a + (b + [i]), symtab, named && named', spelled && spelled')
    ensures Sound(a + ([i] + b), symtab, named && named', spelled && spelled')
  {
    SoundAppend(b, [i], symtab, named', true, spelled', true);
    SoundAppend([i], b, symtab, true, named', true, spelled');
    SoundAppend(a, b + [i], symtab, named, named', spelled, spelled');
    SoundAppend(a, [i] + b, symtab, named, named', spelled, spelled');
  }

  lemma {:induction false} CompiledSound(e: Expr, pc: nat, symtab: seq<byte>, named: bool, spelled: bool)
    requires pc + Len(e) < 0x1_0000 && named == NamesIn(symtab, e) && spelled == Spelled(e)
    ensures Sound(Compile(e, pc), symtab, named, spelled)
    decreases e, 1
  {
    match e
    case Atom(x) => LeafSound(x, symtab, named, spelled);
    case Compare(c, l, r) => PairSound(e, Simple(Cmp(c)), pc, pc + Len(l), symtab, named, spelled);
    case Combine(b, l, r) => PairSound(e, Simple(Bit(b)), pc, pc + Len(l), symtab, named, spelled);
    case Logic(isOr, l, r) => PairSound(e, Skip(isOr, l, r, pc), pc, pc + Len(l) + 3, symtab, named, spelled);
    case Apply(u, f) => SingleSound(f, Simple(Unary(u)), pc, symtab, named, spelled);
    case Invert(f) => SingleSound(f, Simple(BitNot), pc, symtab, named, spelled);
    case Cast(f) => SingleSound(f, Simple(CastToS64), pc, symtab, named, spelled);
  }

  lemma {:induction false} SingleSound(f: Expr, i: Insn, pc: nat, symtab: seq<byte>, named: bool, spelled: bool)
    requires i == Simple(i.op) && (i.op.Unary? || i.op.BitNot? || i.op.CastToS64?) && pc + Len(f) < 0x1_0000
    requires named == NamesIn(symtab, f) && spelled == Spelled(f)
    ensures Sound(Compile(f, pc) + [i], symtab, named, spelled)
    decreases f, 2
  {
    CompiledSound(f, pc, symtab, named, spelled);
    PlainSound(i, symtab);
    SoundAppend(Compile(f, pc), [i], symtab, named, true, spelled, true);
  }

  lemma {:induction false} PairSound(e: Expr, i: Insn, pc: nat, pc': nat, symtab: seq<byte>, named: bool, spelled: bool)
    requires (e.Compare? || e.Combine? || e.Logic?) && pc + Len(e.l) < 0x1_0000 && pc' + Len(e.r) < 0x1_0000
    requires if e.Logic? then i.op.Logical? && i.arg < 0x1_0000 && i.str == []
             else i == Simple(i.op) && (i.op.Cmp? || i.op.Bit?)
    requires named == (NamesIn(symtab, e.l) && NamesIn(symtab, e.r)) && spelled == (Spelled(e.l) && Spelled(e.r))
    ensures Sound(Compile(e.l, pc) + if e.Logic? then [i] + Compile(e.r, pc') else Compile(e.r, pc') + [i],
                  symtab, named, spelled)
    decreases e, 0
  {
    Operands();
    CompiledSound(e.l, pc, symtab, NamesIn(symtab, e.l), Spelled(e.l));
    CompiledSound(e.r, pc', symtab, NamesIn(symtab, e.r), Spelled(e.r));
    SoundOne(i, symtab, true);
    OperatorSound(Compile(e.l, pc), Compile(e.r, pc'), i, symtab, NamesIn(symtab, e.l), NamesIn(symtab, e.r),
                  Spelled(e.l), Spelled(e.r));
  }

  /** The bytecode of an expression, returning its value. */
  function Program(e: Expr, ret: Op): seq<Insn> { Compile(e, 0) + [Simple(ret)] }

  predicate CanReturn(ret: Op, t: RegType) { if ret == Return then t != StarGlob else t == S64 || t == U64 }

  lemma ProgramPasses(e: Expr, ret: Op, symtab: seq<byte>, named: bool)
    requires IsReturn(ret) && AllGoOn(Compile(e, 0)) && named == AllInRange(Compile(e, 0), symtab)
    ensures Passes(Program(e, ret), symtab, INIT) <==> Fine(e, 0) && named && CanReturn(ret, TypeOf(e))
  {
    PassesExactly(Compile(e, 0), Simple(ret), symtab, INIT);
    ExpressionExact(e, INIT);
    LandedClear(Fine(e, 0), Len(e), [], TypeOf(e), map[]);
    NoPointer(e);
  }

  /** The validator accepts the bytes of an expression exactly when the expression is well typed, its
      names stand in the table, its value can be returned, and the stack is deep enough for it. */
  lemma ValidatorExact(e: Expr, ret: Op, symtab: seq<byte>)
    requires IsReturn(ret) && Spelled(e) && Len(e) < 0x1_0000
    ensures Accepts(Assemble(Program(e, ret)), symtab, INIT) <==>
            WellTyped(e) && NamesIn(symtab, e) && CanReturn(ret, TypeOf(e)) && Depth(e) <= STACK_LEN
  {
    var p := Program(e, ret);
    ProgramEncodes(e, ret, symtab, p);
    assert [] + Assemble(p) == Assemble(p);
    PassesAccepts(Assemble(p), [], p, symtab, INIT);
    ProgramPasses(e, ret, symtab, NamesIn(symtab, e));
  }

  lemma ProgramEncodes(e: Expr, ret: Op, symtab: seq<byte>, p: seq<Insn>)
    requires IsReturn(ret) && Spelled(e) && Len(e) < 0x1_0000 && p == Program(e, ret)
    ensures AllEncodable(p) && AllGoOn(Compile(e, 0)) && NamesIn(symtab, e) == AllInRange(Compile(e, 0), symtab)
  {
    CompiledSound(e, 0, symtab, NamesIn(symtab, e), true);
    Operands();
  }
}
