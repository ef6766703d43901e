/** The execution stack as the interpreter keeps it: an array whose two topmost entries are cached
    in registers when they are integers, and live in the array when they are strings or pointers.
    How far this machine follows the one on whole values. */
module Registers {
  import opened Words
  import opened Opcodes
  import opened Validator
  import opened Fields
  import opened Specializer
  import opened Interpreter
  import opened Linked
  import opened StringCompare
  import Glob

  /** The first words of a pointer entry: its load type, and its object type. */
  datatype Heading = RootHeading(payload: bool) | ObjHeading(ot: ObjType)

  /** The first word of an entry: an integer, the address of a string, or a pointer's heading. */
  datatype Bits = Num(w: word) | Addr(s: StrReg) | Head(h: Heading)

  /** The union of an entry: a string, a pointer with its first word, or no more than a first word. */
  datatype Content = Raw(b: Bits) | Chars(s: StrReg) | Link(p: Pointer, w: Bits)

  datatype Cell = Cell(ty: RegType, u: Content)

  /** The array, the index of its top entry, and the registers ax, bx, ax_t and bx_t. */
  datatype Regs = Regs(e: seq<Cell>, top: nat, ax: Bits, bx: Bits, axT: RegType, bxT: RegType)

  const STACK_EMPTY: nat := 1

  predicate Shaped(r: Regs) { |r.e| == STACK_LEN && STACK_EMPTY <= r.top < STACK_LEN }

  function HeadingOf(p: Pointer): Heading {
    match p
    case PayloadRoot => RootHeading(true)
    case ContextRoot => RootHeading(false)
    case Obj(ot, _, _) => ObjHeading(ot)
  }

  /** u.v as read. */
  function First(u: Content): Bits {
    match u case Raw(b) => b case Chars(s) => Addr(s) case Link(_, w) => w
  }

  const LOAD_ROOT_CONTEXT: nat := 0
  const LOAD_ROOT_PAYLOAD: nat := 2
  const LOAD_OBJECT: nat := 3

  /** The load type in the low half of a first word; that of an address is none. */
  function LoadType(b: Bits): Option<nat> {
    match b
    case Num(w) => Some(w % 0x1_0000_0000)
    case Head(RootHeading(payload)) => Some(if payload then LOAD_ROOT_PAYLOAD else LOAD_ROOT_CONTEXT)
    case Head(ObjHeading(_)) => Some(LOAD_OBJECT)
    case Addr(_) => None
  }

  function RootType(p: Pointer): nat
    requires !p.Obj?
  {
    if p.PayloadRoot? then LOAD_ROOT_PAYLOAD else LOAD_ROOT_CONTEXT
  }

  /** u.v as written: another first word is the end of a string or of an object, while a payload
      root lasts as long as its load type is written over it. */
  function Overwrite(u: Content, b: Bits): (u': Content)
    ensures First(u') == b
  {
    if b == First(u) then u
    else if u.Link? && u.p.PayloadRoot? && LoadType(b) == Some(LOAD_ROOT_PAYLOAD) then Link(PayloadRoot, b)
    else Raw(b)
  }

  /** The entry read as a pointer. A context root is no more than its load type. */
  function Target(u: Content): Option<Pointer> {
    match u
    case Raw(b) => if LoadType(b) == Some(LOAD_ROOT_CONTEXT) then Some(ContextRoot) else None
    case Chars(_) => None
    case Link(p, _) => Some(p)
  }

  function ContentOf(v: Value): Content {
    match v case VInt(w) => Raw(Num(w)) case VStr(s) => Chars(s) case VPtr(p) => Link(p, Head(HeadingOf(p)))
  }

  /** estack_push: the entry below the top goes from its registers to the array. */
  function PushRegs(r: Regs): Regs
    requires Shaped(r) && r.top < STACK_LEN - 1
  {
    Regs(r.e[r.top - 1 := Cell(r.bxT, Overwrite(r.e[r.top - 1].u, r.bx))], r.top + 1, r.ax, r.ax, r.axT, r.axT)
  }

  /** estack_pop: the third entry comes from the array to the registers. */
  function PopRegs(r: Regs): Regs
    requires Shaped(r) && r.top > STACK_EMPTY
  {
    Regs(r.e, r.top - 1, r.bx, First(r.e[r.top - 2].u), r.bxT, r.e[r.top - 2].ty)
  }

  function SetInt(r: Regs, w: word, t: RegType): Regs { r.(ax := Num(w), axT := t) }

  function SetTop(r: Regs, c: Cell): Regs
    requires Shaped(r)
  {
    r.(e := r.e[r.top := c])
  }

  /** A string or a root goes to the array; some loads leave the entry's type as it was. */
  function PushCell(r: Regs, u: Content, ty: Option<RegType>): Regs
    requires Shaped(r) && r.top < STACK_LEN - 1
  {
    var p := PushRegs(r);
    SetTop(p, Cell(if ty.Some? then ty.value else p.e[p.top].ty, u))
  }

  datatype RTurn = Stop(o: Outcome) | Go(pc: nat, r: Regs)

  function Verdict(b: Bits): RTurn {
    if b.Num? then Stop(if b.w != 0 then Accept else Reject) else Stop(Wild)
  }

  /** The instructions that push one entry. */
  function RegPush(env: Env, i: Insn, next: nat, r: Regs): RTurn
    requires env.Valid() && Shaped(r) && IsPush(i.op)
  {
    if r.top >= STACK_LEN - 1 then Stop(Overflow)
    else
      match i.op
      case LoadRef(ref) =>
        (match LoadReference(env, ref, i.arg)
         case Bad(o) => Stop(o)
         case Ok(VInt(w)) => Go(next, SetInt(PushRegs(r), w, S64))
         case Ok(v) =>
           Go(next, PushCell(r, ContentOf(v), if ref.FieldSequence? || ref.UserSequence? then None else Some(Str))))
      case LoadString => Go(next, PushCell(r, Chars(StrReg(i.str, PlainLiteral)), None))
      case LoadStarGlob => Go(next, PushCell(r, Chars(StrReg(i.str, GlobLiteral)), None))
      case LoadS64 => Go(next, SetInt(PushRegs(r), Word(i.arg), S64))
      case GetContextRoot => Go(next, PushCell(r, ContentOf(VPtr(ContextRoot)), Some(Ptr)))
      case _ => Go(next, PushCell(r, ContentOf(VPtr(PayloadRoot)), Some(Ptr)))
  }

  /** The two-operand instructions; order and glob are the string routines' results. */
  function RegBinary(op: Op, next: nat, r: Regs, order: Option<int>, glob: bool): RTurn
    requires Shaped(r) && r.top > STACK_EMPTY + 1 && IsBinary(op)
  {
    var strings := r.e[r.top - 1].u.Chars? && r.e[r.top].u.Chars?;
    var numbers := r.bx.Num? && r.ax.Num?;
    match op
    case CmpString(c) =>
      if !strings || order.None? then Stop(Wild)
      else Go(next, SetInt(PopRegs(r), if Holds(c, order.value) then 1 else 0, S64))
    case CmpGlob(ne) => if strings then Go(next, SetInt(PopRegs(r), if glob != ne then 1 else 0, S64)) else Stop(Wild)
    case CmpS64(c) =>
      if !numbers then Stop(Wild)
      else Go(next, SetInt(PopRegs(r), if Holds(c, Order(r.bx.w, r.ax.w)) then 1 else 0, S64))
    case Bit(b) =>
      if !IsInt(r.axT) || !IsInt(r.bxT) then Stop(Error)
      else if !numbers then Stop(Wild)
      else match BitResult(b, r.bx.w, r.ax.w)
           case Ok(VInt(w)) => Go(next, SetInt(PopRegs(r), w, U64))
           case Ok(_) => Stop(Wild)
           case Bad(o) => Stop(o)
  }

  /** The register type dynamic_load_field records for an object. */
  function LoadedType(ot: ObjType): RegType {
    if ot == StringObj || ot == StringSequence then Str else if IsSignedElem(ot) || ot == SignedEnum then S64 else U64
  }

  /** The instructions that work on the top entry. */
  function RegTop(env: Env, i: Insn, next: nat, r: Regs): RTurn
    requires env.Valid() && Shaped(r) && r.top > STACK_EMPTY
  {
    var p := Target(r.e[r.top].u);
    match i.op
    case BitNot => if r.ax.Num? then Go(next, SetInt(r, MODULUS - 1 - r.ax.w, S64)) else Stop(Wild)
    case UnaryS64(Plus) => Go(next, r)
    case UnaryS64(op) => if r.ax.Num? then Go(next, SetInt(r, UnaryResult(op, r.ax.w).v, S64)) else Stop(Wild)
    case LoadTyped(t) =>
      if p.None? || !p.value.Obj? then Stop(Wild)
      else (match LoadMem(t, p.value.mem)
            case Bad(o) => Stop(o)
            case Ok(VInt(w)) => Go(next, SetInt(r, w, S64))
            case Ok(v) => Go(next, SetTop(r, Cell(Str, ContentOf(v)))))
    case LoadField =>
      if p.None? then Stop(Wild)
      else if !p.value.Obj? then Stop(Error)
      else (match LoadMem(p.value.ot, p.value.mem)
            case Bad(o) => Stop(o)
            case Ok(v) => Go(next, Fetched(r, Cell(LoadedType(p.value.ot), ContentOf(v)))))
    case GetIndexU16 => RegIndex(env, i.arg, next, r)
    case GetIndexU64 => RegIndex(env, i.arg, next, r)
    case _ => Stop(Error)
  }

  function RegIndex(env: Env, arg: nat, next: nat, r: Regs): RTurn
    requires env.Valid() && Shaped(r)
  {
    var p := Target(r.e[r.top].u);
    if p.None? || arg !in env.gids then Stop(Wild)
    else match DynamicGetIndex(env, env.gids[arg], p.value)
         case Bad(o) => Stop(o)
         case Ok(v) => Go(next, Fetched(r, Cell(Ptr, ContentOf(v))))
  }

  /** The top entry replaced in the array and read back into the registers. */
  function Fetched(r: Regs, c: Cell): Regs
    requires Shaped(r)
  {
    SetTop(r, c).(ax := First(c.u), axT := c.ty)
  }

  function RegLogical(i: Insn, next: nat, r: Regs): RTurn
    requires Shaped(r) && r.top > STACK_EMPTY && i.op.Logical?
  {
    if !r.ax.Num? then Stop(Wild)
    else if i.op.isOr then (if r.ax.w != 0 then Go(i.arg, r.(ax := Num(1))) else Go(next, PopRegs(r)))
    else (if r.ax.w == 0 then Go(i.arg, r) else Go(next, PopRegs(r)))
  }

  ghost function StringsOrder(r: Regs): Option<int>
    requires Shaped(r)
  {
    var b, a := r.e[r.top - 1].u, r.e[r.top].u;
    if b.Chars? && a.Chars? then StrCmp(b.s, a.s) else None
  }

  ghost predicate StringsMatch(r: Regs)
    requires Shaped(r)
  {
    var b, a := r.e[r.top - 1].u, r.e[r.top].u;
    b.Chars? && a.Chars? && GlobHolds(b.s, a.s)
  }

  /** One dispatched instruction of lttng_bytecode_interpret. */
  ghost function RegInsn(env: Env, i: Insn, pc: nat, r: Regs): RTurn
    requires env.Valid() && Shaped(r)
  {
    var next := pc + Size(i);
    if IsBinary(i.op) then
      if r.top <= STACK_EMPTY + 1 then Stop(Stuck) else RegBinary(i.op, next, r, StringsOrder(r), StringsMatch(r))
    else RegOther(env, i, next, r)
  }

  function RegOther(env: Env, i: Insn, next: nat, r: Regs): RTurn
    requires env.Valid() && Shaped(r) && !IsBinary(i.op)
  {
    if IsPush(i.op) then RegPush(env, i, next, r)
    else
      match i.op
      case Return =>
        if r.top <= STACK_EMPTY then Stop(Stuck) else if IsInt(r.axT) then Verdict(r.ax) else Stop(Error)
      case ReturnS64 => if r.top <= STACK_EMPTY then Stop(Stuck) else Verdict(r.ax)
      case CmpDoubleS64(_) => Stop(Assertion)
      case GetAppContextRoot => Stop(Assertion)
      case Logical(_) => if r.top <= STACK_EMPTY then Stop(Stuck) else RegLogical(i, next, r)
      case CastNop => Go(next, r)
      case Cmp(_) => Stop(Error)
      case Unary(_) => Stop(Error)
      case CastToS64 => Stop(Error)
      case Unsupported => Stop(Error)
      case _ => if r.top <= STACK_EMPTY then Stop(Stuck) else RegTop(env, i, next, r)
  }

  /** The array of a fresh frame is whatever was there. */
  function RegInit(e: seq<Cell>): Regs { Regs(e, STACK_EMPTY, Num(0), Num(0), Unknown, Unknown) }

  ghost function RegStep(env: Env, code: seq<byte>, pc: nat, r: Regs): RTurn
    requires env.Valid() && Shaped(r)
  {
    if pc >= |code| || Decode(code, pc).None? then Stop(Stuck) else RegInsn(env, Decode(code, pc).value, pc, r)
  }

  lemma RegStepShaped(env: Env, code: seq<byte>, pc: nat, r: Regs)
    requires env.Valid() && Shaped(r)
    ensures RegStep(env, code, pc, r).Go? ==> Shaped(RegStep(env, code, pc, r).r)
  {
  }

  ghost function RegRun(env: Env, code: seq<byte>, pc: nat, r: Regs): Outcome
    requires env.Valid() && Shaped(r)
    decreases |code| - pc
  {
    RegStepShaped(env, code, pc, r);
    match RegStep(env, code, pc, r)
    case Stop(o) => o
    case Go(pc', r') => if pc' <= pc then Stuck else RegRun(env, code, pc', r')
  }

  // The sequence of values behind the registers

  /** The k-th of n values: integers among the top two are in the registers, all else is in the
      array, and what an index access left on top is in both. */
  ghost predicate Keeps(r: Regs, n: nat, k: nat, v: Value)
    requires |r.e| == STACK_LEN && k < n <= CAPACITY
  {
    if v.VInt? then
      if k == n - 1 then r.ax == Num(v.v) && IsInt(r.axT)
      else if k == n - 2 then r.bx == Num(v.v) && IsInt(r.bxT)
      else First(r.e[k + 2].u) == Num(v.v) && IsInt(r.e[k + 2].ty)
    else if v.VPtr? && !v.p.Obj? then
      Target(r.e[k + 2].u) == Some(v.p) && LoadType(First(r.e[k + 2].u)) == Some(RootType(v.p))
    else
      && r.e[k + 2].u == ContentOf(v)
      && (v.VPtr? && v.p.Obj? ==>
            && (k == n - 1 ==> r.ax == First(ContentOf(v)))
            && (k == n - 2 ==> r.bx == First(ContentOf(v))))
  }

  ghost predicate Represents(r: Regs, vs: seq<Value>) {
    && Shaped(r) && r.top == STACK_EMPTY + |vs|
    && forall k :: 0 <= k < |vs| ==> Keeps(r, |vs|, k, vs[k])
  }

  /** What a push may sink into the array without loss: nothing, an integer, an object, a string
      whose address is also in the register, or a root whose load type is. */
  ghost predicate Sinks(r: Regs, vs: seq<Value>) {
    |vs| < 2 ||
    match Bx(vs)
    case VInt(_) => true
    case VStr(s) => r.bx == Addr(s)
    case VPtr(p) => p.Obj? || LoadType(r.bx) == Some(RootType(p))
  }

  lemma PushedBelow(r: Regs, vs: seq<Value>, r': Regs, n: nat)
    requires Represents(r, vs) && |vs| < CAPACITY && n == |vs| + 1
    requires |r'.e| == STACK_LEN && r'.e[..r.top + 1] == PushRegs(r).e[..r.top + 1] && r'.bx == r.ax && r'.bxT == r.axT
    ensures (forall k :: 0 <= k < |vs| ==> Keeps(r', n, k, vs[k])) <==> Sinks(r, vs)
  {
    var p := PushRegs(r);
    forall k | 0 <= k < |vs| && k != |vs| - 2 ensures Keeps(r', n, k, vs[k]) {
      assert Keeps(r, |vs|, k, vs[k]);
      assert r'.e[k + 2] == r'.e[..r.top + 1][k + 2] == p.e[k + 2] == r.e[k + 2];
    }
    if |vs| >= 2 {
      var k := |vs| - 2;
      assert Keeps(r, |vs|, k, vs[k]);
      assert r'.e[k + 2] == r'.e[..r.top + 1][k + 2] == p.e[k + 2];
    }
  }

  /** A push keeps all values exactly when the entry it sinks can be sunk. */
  lemma PushIntExactly(r: Regs, vs: seq<Value>, w: word, t: RegType)
    requires Represents(r, vs) && |vs| < CAPACITY && IsInt(t)
    ensures Represents(SetInt(PushRegs(r), w, t), vs + [VInt(w)]) <==> Sinks(r, vs)
  {
    var r', vs' := SetInt(PushRegs(r), w, t), vs + [VInt(w)];
    PushedBelow(r, vs, r', |vs'|);
    assert forall k :: 0 <= k < |vs| ==> vs'[k] == vs[k];
    assert Keeps(r', |vs'|, |vs|, vs'[|vs|]);
  }

  lemma PushCellExactly(r: Regs, vs: seq<Value>, v: Value, ty: Option<RegType>)
    requires Represents(r, vs) && |vs| < CAPACITY && !v.VInt? && (v.VPtr? ==> !v.p.Obj?)
    ensures Represents(PushCell(r, ContentOf(v), ty), vs + [v]) <==> Sinks(r, vs)
  {
    var r', vs' := PushCell(r, ContentOf(v), ty), vs + [v];
    PushedBelow(r, vs, r', |vs'|);
    assert forall k :: 0 <= k < |vs| ==> vs'[k] == vs[k];
    assert Keeps(r', |vs'|, |vs|, vs'[|vs|]);
  }

  /** On the initial zero of the registers a context root is sunk without loss, a payload root is not. */
  lemma FirstRootSunk(e: seq<Cell>, p: Pointer, w: word, w': word)
    requires |e| == STACK_LEN && !p.Obj?
    ensures var r := SetInt(PushRegs(PushCell(RegInit(e), ContentOf(VPtr(p)), Some(Ptr))), w, S64);
            Represents(SetInt(PushRegs(r), w', S64), [VPtr(p), VInt(w)] + [VInt(w')]) <==> p.ContextRoot?
  {
    var r0 := RegInit(e);
    assert Represents(r0, []);
    PushCellExactly(r0, [], VPtr(p), Some(Ptr));
    assert [] + [VPtr(p)] == [VPtr(p)];
    var r1 := PushCell(r0, ContentOf(VPtr(p)), Some(Ptr));
    PushIntExactly(r1, [VPtr(p)], w, S64);
    assert [VPtr(p)] + [VInt(w)] == [VPtr(p), VInt(w)];
    PushIntExactly(SetInt(PushRegs(r1), w, S64), [VPtr(p), VInt(w)], w', S64);
  }

  lemma PopKeeps(r: Regs, vs: seq<Value>)
    requires Represents(r, vs) && |vs| >= 1
    ensures Represents(PopRegs(r), Pop(vs))
  {
    forall k | 0 <= k < |vs| - 1 ensures Keeps(PopRegs(r), |vs| - 1, k, Pop(vs)[k]) {
      assert Keeps(r, |vs|, k, vs[k]);
    }
  }

  lemma SetIntKeeps(r: Regs, vs: seq<Value>, w: word, t: RegType)
    requires Represents(r, vs) && |vs| >= 1 && IsInt(t)
    ensures Represents(SetInt(r, w, t), SetAx(vs, VInt(w)))
  {
    forall k | 0 <= k < |vs| ensures Keeps(SetInt(r, w, t), |vs|, k, SetAx(vs, VInt(w))[k]) {
      assert Keeps(r, |vs|, k, vs[k]);
    }
  }

  lemma SetTopKeeps(r: Regs, vs: seq<Value>, v: Value, r': Regs)
    requires Represents(r, vs) && |vs| >= 1
    requires Shaped(r') && r'.e[..r.top] == r.e[..r.top] && r'.top == r.top && r'.bx == r.bx && r'.bxT == r.bxT
    requires Keeps(r', |vs|, |vs| - 1, v)
    ensures Represents(r', SetAx(vs, v))
  {
    forall k | 0 <= k < |vs| ensures Keeps(r', |vs|, k, SetAx(vs, v)[k]) {
      assert Keeps(r, |vs|, k, vs[k]);
      if k < |vs| - 1 {
        assert r'.e[k + 2] == r'.e[..r.top][k + 2] == r.e[k + 2];
      }
    }
  }

  // One step of both machines

  /** The registers' turn is the turn on values. */
  ghost predicate Follows(c: RTurn, t: Turn) {
    match t
    case Halt(o) => c == Stop(o)
    case Goto(pc, vs) => c.Go? && c.pc == pc && Represents(c.r, vs)
  }

  /** Where the cache shows: a push sinks the entry below the top, a return reads the register's
      type, and the bit operators read both registers' types. */
  ghost predicate Unharmed(i: Insn, r: Regs, vs: seq<Value>, t: Turn)
    requires Shaped(r)
  {
    && (IsPush(i.op) && t.Goto? ==> Sinks(r, vs))
    && (i.op.Return? && |vs| >= 1 && !Ax(vs).VInt? ==> !IsInt(r.axT))
    && (i.op.Bit? && |vs| >= 2 && !(Bx(vs).VInt? && Ax(vs).VInt?) ==>
          r.top > STACK_EMPTY + 1 && RegBinary(i.op, 0, r, None, false) == Stop(Error))
  }

  lemma PushFollows(env: Env, i: Insn, pc: nat, r: Regs, vs: seq<Value>)
    requires env.Valid() && Represents(r, vs) && IsPush(i.op)
    ensures var t := StepInsn(env, i, pc, vs); Follows(RegInsn(env, i, pc, r), t) <==> Unharmed(i, r, vs, t)
  {
    if |vs| < CAPACITY {
      match i.op
      case LoadRef(ref) =>
        var v := LoadReference(env, ref, i.arg);
        ReferenceShape(env, ref, i.arg);
        if v.Ok? {
          if v.value.VInt? {
            PushIntExactly(r, vs, v.value.v, S64);
          } else {
            PushCellExactly(r, vs, v.value, if ref.FieldSequence? || ref.UserSequence? then None else Some(Str));
          }
        }
      case LoadString => PushCellExactly(r, vs, VStr(StrReg(i.str, PlainLiteral)), None);
      case LoadStarGlob => PushCellExactly(r, vs, VStr(StrReg(i.str, GlobLiteral)), None);
      case LoadS64 => PushIntExactly(r, vs, Word(i.arg), S64);
      case GetContextRoot => PushCellExactly(r, vs, VPtr(ContextRoot), Some(Ptr));
      case GetPayloadRoot => PushCellExactly(r, vs, VPtr(PayloadRoot), Some(Ptr));
    }
  }

  lemma ReferenceShape(env: Env, ref: RefOp, arg: nat)
    requires env.Valid()
    ensures LoadReference(env, ref, arg).Ok? ==> !LoadReference(env, ref, arg).value.VPtr?
  {
  }

  lemma TopTwo(r: Regs, vs: seq<Value>)
    requires Represents(r, vs) && |vs| >= 2
    ensures Keeps(r, |vs|, |vs| - 1, Ax(vs)) && Keeps(r, |vs|, |vs| - 2, Bx(vs))
  {
  }

  lemma BinaryFollows(env: Env, i: Insn, pc: nat, r: Regs, vs: seq<Value>)
    requires env.Valid() && Represents(r, vs) && IsBinary(i.op) && StepInsn(env, i, pc, vs) != Halt(Wild)
    ensures var t := StepInsn(env, i, pc, vs); Follows(RegInsn(env, i, pc, r), t) <==> Unharmed(i, r, vs, t)
  {
    if |vs| >= 2 {
      TopTwo(r, vs);
      PopKeeps(r, vs);
      var t := StepInsn(env, i, pc, vs);
      if t.Goto? {
        var x := BinaryResult(i.op, Bx(vs), Ax(vs), StringOrder(Bx(vs), Ax(vs)), GlobOf(Bx(vs), Ax(vs))).value;
        BinaryIsInt(i.op, Bx(vs), Ax(vs), StringOrder(Bx(vs), Ax(vs)), GlobOf(Bx(vs), Ax(vs)));
        SetIntKeeps(PopRegs(r), Pop(vs), x.v, if i.op.Bit? then U64 else S64);
      }
    }
  }

  lemma BinaryIsInt(op: Op, b: Value, a: Value, order: Option<int>, glob: bool)
    ensures BinaryResult(op, b, a, order, glob).Ok? ==> BinaryResult(op, b, a, order, glob).value.VInt?
  {
  }

  predicate IsTop(op: Op) {
    op.BitNot? || op.UnaryS64? || op.LoadTyped? || op.LoadField? || op.GetIndexU16? || op.GetIndexU64? || op.GetSymbol?
  }

  lemma TopFollows(env: Env, i: Insn, pc: nat, r: Regs, vs: seq<Value>)
    requires env.Valid() && Represents(r, vs) && IsTop(i.op) && StepInsn(env, i, pc, vs) != Halt(Wild)
    ensures Follows(RegInsn(env, i, pc, r), StepInsn(env, i, pc, vs))
  {
    if |vs| >= 1 {
      assert Keeps(r, |vs|, |vs| - 1, Ax(vs));
      var x, c := TopResult(env, i, Ax(vs)), RegInsn(env, i, pc, r);
      assert StepInsn(env, i, pc, vs) == Replaced(vs, x, pc + Size(i));
      if x.Ok? {
        TopIsKept(env, i, pc, r, vs);
        SetTopKeeps(r, vs, x.value, c.r);
      }
    }
  }

  lemma TopIsKept(env: Env, i: Insn, pc: nat, r: Regs, vs: seq<Value>)
    requires env.Valid() && Represents(r, vs) && IsTop(i.op) && |vs| >= 1 && TopResult(env, i, Ax(vs)).Ok?
    ensures var c := RegInsn(env, i, pc, r);
            && c.Go? && c.pc == pc + Size(i) && Shaped(c.r) && c.r.e[..r.top] == r.e[..r.top] && c.r.top == r.top
            && c.r.bx == r.bx && c.r.bxT == r.bxT && Keeps(c.r, |vs|, |vs| - 1, TopResult(env, i, Ax(vs)).value)
  {
    assert Keeps(r, |vs|, |vs| - 1, Ax(vs));
  }

  /** From a state of registers that keeps the values, one instruction does on the registers what
      it does on the values exactly when the cache does no harm. */
  lemma StepExactly(env: Env, i: Insn, pc: nat, r: Regs, vs: seq<Value>)
    requires env.Valid() && Represents(r, vs) && StepInsn(env, i, pc, vs) != Halt(Wild)
    ensures var t := StepInsn(env, i, pc, vs); Follows(RegInsn(env, i, pc, r), t) <==> Unharmed(i, r, vs, t)
  {
    if IsPush(i.op) {
      PushFollows(env, i, pc, r, vs);
    } else if IsBinary(i.op) {
      BinaryFollows(env, i, pc, r, vs);
    } else if IsTop(i.op) {
      TopFollows(env, i, pc, r, vs);
    } else {
      PlainFollows(env, i, pc, r, vs);
    }
  }

  lemma PlainFollows(env: Env, i: Insn, pc: nat, r: Regs, vs: seq<Value>)
    requires env.Valid() && Represents(r, vs) && !IsPush(i.op) && !IsBinary(i.op) && !IsTop(i.op)
    requires StepInsn(env, i, pc, vs) != Halt(Wild)
    ensures var t := StepInsn(env, i, pc, vs); Follows(RegInsn(env, i, pc, r), t) <==> Unharmed(i, r, vs, t)
  {
    if |vs| >= 1 {
      assert Keeps(r, |vs|, |vs| - 1, Ax(vs));
      PopKeeps(r, vs);
      if i.op.Logical? && Ax(vs).VInt? {
        SetIntKeeps(r, vs, 1, r.axT);
        assert SetAx(vs, Ax(vs)) == vs;
      }
    }
  }
}
