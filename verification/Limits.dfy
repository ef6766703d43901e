/** Where the pipeline's promises stop: exact conditions, and programs that show them. */
module Limits {
  import opened Words
  import opened Opcodes
  import opened Validator
  import opened Fields
  import opened Specializer
  import opened Interpreter
  import opened Linked
  import opened StringCompare
  import opened Soundness
  import opened Preservation
  import opened Registers

  /** The two passes keep stacks of the same depth at every instruction but LE. */
  lemma DepthsAgreeExceptLE(src: Source, i: Insn, pc: nat, ts: seq<RegType>, es: seq<Entry>, arena: Arena)
    requires |ts| == |es| && ContextOk(i, pc, ts) && Exec(i.op, ts).Some? && SpecInsn(src, i, es, arena).Some?
    ensures |SpecInsn(src, i, es, arena).value.stack| == |Exec(i.op, ts).value| <==> i.op != Cmp(LE)
  {}

  /** A specialized comparator computes what the original does exactly when its operands are of
      one class; otherwise it fails on every pair of operands of the tracked types. */
  lemma ComparatorExact(env: Env, src: Source, i: Insn, pc: nat, es: seq<Entry>, arena: Arena, vs: seq<Value>)
    requires env.Valid() && i.op.Cmp? && Known(es, vs) && SpecInsn(src, i, es, arena).Some?
    requires var o := SpecInsn(src, i, es, arena).value; Size(Insn(o.op, o.arg, i.str)) == Size(i)
    ensures var o := SpecInsn(src, i, es, arena).value;
            StepInsn(env, Insn(o.op, o.arg, i.str), pc, vs) == RefInsn(env, src.symtab, i, pc, vs)
            <==> SameClass(Ax(es).ty, Bx(es).ty)
  {
    var o := SpecInsn(src, i, es, arena).value;
    var b, a := Bx(vs), Ax(vs);
    var r := RefCompare(i.op.c, b, a);
    if SameClass(Ax(es).ty, Bx(es).ty) {
      assert r == BinaryResult(o.op, b, a, StringOrder(b, a), GlobOf(b, a));
    } else {
      assert r.Bad? ==> r.o == Error;
    }
  }

  predicate IsString(t: RegType) { t == Str || t == StarGlob }

  /** A value of the kind that the validator's type stands for. */
  function Sample(t: RegType): (v: Value)
    ensures KindOk(t, v)
    ensures v.VStr? <==> IsString(t)
  {
    match t
    case Str => VStr(StrReg([], PlainLiteral))
    case StarGlob => VStr(StrReg([], GlobLiteral))
    case Ptr => VPtr(PayloadRoot)
    case _ => VInt(0)
  }

  /** A glob comparator that came in specialized stays as it is, and finds an operand of another
      kind exactly when one of the two is not a string. */
  lemma GlobComparatorExact(env: Env, src: Source, ne: bool, pc: nat, es: seq<Entry>, arena: Arena, vs: seq<Value>)
    requires env.Valid() && |vs| >= 2 && |es| >= 2
    ensures var i := Insn(CmpGlob(ne), 0, []);
            && SpecInsn(src, i, es, arena).Some? && SpecInsn(src, i, es, arena).value.op == i.op
            && (StepInsn(env, i, pc, vs) == Halt(Wild) <==> !Bx(vs).VStr? || !Ax(vs).VStr?)
  {}

  /** By the validator's types: the comparator is safe for all values of these types exactly when
      both are strings, which is more than the one glob that the validator asks for. */
  lemma GlobTypesExact(env: Env, ne: bool, pc: nat, ts: seq<RegType>)
    requires env.Valid() && |ts| >= 2
    ensures (forall vs :: Kinds(ts, vs) ==> StepInsn(env, Insn(CmpGlob(ne), 0, []), pc, vs) != Halt(Wild))
            <==> IsString(Ax(ts)) && IsString(Bx(ts))
    ensures ContextOk(Insn(CmpGlob(ne), 0, []), pc, ts) <==> Ax(ts) == StarGlob || Bx(ts) == StarGlob
  {
    var i := Insn(CmpGlob(ne), 0, []);
    var samples := seq(|ts|, k requires 0 <= k < |ts| => Sample(ts[k]));
    assert Kinds(ts, samples);
    assert Bx(samples) == Sample(Bx(ts)) && Ax(samples) == Sample(Ax(ts));
    forall vs | Kinds(ts, vs) && IsString(Ax(ts)) && IsString(Bx(ts)) ensures StepInsn(env, i, pc, vs) != Halt(Wild) {
      assert KindOk(ts[|ts| - 1], vs[|ts| - 1]) && KindOk(ts[|ts| - 2], vs[|ts| - 2]);
    }
  }

  /** A product reduced to 64 bits, for a width that divides them. */
  lemma WrappedProduct(index: nat, w: nat)
    requires w == 1 || w == 2 || w == 4 || w == 8
    ensures Word(index * w) == index % (MODULUS / w) * w
  {
    var n := MODULUS / w;
    var q, j := index / n, index % n;
    assert index == q * n + j && n * w == MODULUS;
    assert index * w == q * MODULUS + j * w;
    assert 0 <= j * w < MODULUS;
    ReducedBy(q, j * w);
  }

  lemma ReducedBy(q: nat, r: nat)
    requires r < MODULUS
    ensures Word(q * MODULUS + r) == r
  {
    if q > 0 {
      ReducedBy(q - 1, r);
      assert q * MODULUS + r == ((q - 1) * MODULUS + r) + MODULUS;
    }
  }

  /** The sequence of the given elements, as a pointer to it. */
  function SequenceOf(e: Elem, text: bool, len: count, data: Option<seq<byte>>): Pointer {
    Obj(SequenceObj, SlotMem(SeqSlot(len, data)), Some(Sequence(e, text)))
  }

  /** The element that a constant index reaches is the one of the index reduced by the size of the
      address space. The bound on it lets through eight times the length of the sequence; the
      element lies inside the data exactly when it is below the length itself. */
  lemma SequenceBound(env: Env, e: Elem, index: nat, len: count, data: seq<byte>, text: bool)
    requires env.Valid() && Bytewise(e) && |data| == len * (e.size / 8)
    ensures var w := e.size / 8;
            var j := index % (MODULUS / w);
            var r := DynamicGetIndex(env, ElemGid(e, index), SequenceOf(e, text, len, Some(data)));
            && (r.Ok? <==> j < 8 * len)
            && (r.Ok? ==>
                  && r.value == VPtr(Obj(ElemObjType(e).value, ElemMem(Some(data), j * w), None))
                  && (LoadMem(r.value.p.ot, r.value.p.mem).Ok? <==> j < len))
  {
    var w := e.size / 8;
    var j := index % (MODULUS / w);
    WrappedProduct(index, w);
    ScaledOrder(j, 8 * len, w);
    ScaledOrder(len, j + 1, w);
    assert e.size == 8 * w && e.size * len == 8 * len * w;
    assert j * w + w == (j + 1) * w;
    assert ElemWidth(ElemObjType(e).value) == w;
  }

  /** Through its record an index reaches on every sequence what it denotes exactly when its offset
      does not wrap to one that a sequence can hold. */
  lemma IndexExact(env: Env, e: Elem, index: nat, text: bool)
    requires env.Valid() && Bytewise(e)
    ensures (forall len: count, data :: IndexKept(env, e, index, text, len, data)) <==> !Wraps(e, index)
  {
    if Wraps(e, index) {
      WrapShows(env, e, index, text);
    } else {
      forall len: count, data ensures IndexKept(env, e, index, text, len, data) {
        ElemAgrees(env, Sequence(e, text), index, SequenceOf(e, text, len, data));
      }
    }
  }

  ghost predicate IndexKept(env: Env, e: Elem, index: nat, text: bool, len: count, data: Option<seq<byte>>)
    requires env.Valid() && Bytewise(e)
  {
    var p := SequenceOf(e, text, len, data);
    DynamicGetIndex(env, ElemGid(e, index), p) == RefIndex(index, p)
  }

  /** The longest sequence shows a wrapped index. */
  lemma WrapShows(env: Env, e: Elem, index: nat, text: bool)
    requires env.Valid() && Bytewise(e) && Wraps(e, index)
    ensures !IndexKept(env, e, index, text, MAX_COUNT, None)
  {
    ElemOffset(e, index, MAX_COUNT);
  }

  // ---- stack depth: the validator holds ten entries, the interpreter eight ----

  /** n times LOAD_STRING "", then RETURN. */
  function Deep(n: nat): seq<byte> { if n == 0 then [1] else [64, 0] + Deep(n - 1) }

  lemma {:induction false} DeepSuffix(n: nat, k: nat)
    requires k <= n
    ensures |Deep(n)| == 2 * n + 1 && Deep(n)[2 * k..] == Deep(n - k)
  {
    if k > 0 {
      DeepSuffix(n - 1, k - 1);
      assert Deep(n)[2 * k..] == Deep(n - 1)[2 * (k - 1)..];
    } else if n > 0 {
      DeepSuffix(n - 1, 0);
    }
  }

  lemma DeepDecode(n: nat, k: nat)
    requires k <= n
    ensures 2 * k < |Deep(n)| && Decode(Deep(n), 2 * k) == Some(Insn(if k < n then LoadString else Return, 0, []))
  {
    DeepSuffix(n, k);
    var code := Deep(n);
    assert code[2 * k..][0] == code[2 * k];
    if k < n {
      assert code[2 * k..][1] == code[2 * k + 1];
      assert code[2 * k + 1..][0] == 0;
      assert code[2 * k + 1..][..0] == [];
    } else {
      assert code[2 * k + 1..2 * k + 1] == [];
    }
  }

  function Copies<T>(x: T, k: nat): (s: seq<T>)
    ensures |s| == k && forall j :: 0 <= j < k ==> s[j] == x
  {
    if k == 0 then [] else Copies(x, k - 1) + [x]
  }

  lemma {:induction false} DeepAccepted(symtab: seq<byte>, n: nat, k: nat)
    requires 1 <= n <= STACK_LEN && k <= n
    ensures Accepts(Deep(n), symtab, VState(2 * k, Copies(Str, k), map[]))
    decreases n - k
  {
    DeepDecode(n, k);
    if k < n {
      DeepAccepted(symtab, n, k + 1);
      assert Copies(Str, k + 1) == Copies(Str, k) + [Str];
      assert VStep(Deep(n), symtab, VState(2 * k, Copies(Str, k), map[]))
             == Next(VState(2 * (k + 1), Copies(Str, k + 1), map[]));
    }
  }

  /** The specializer leaves a run of string loads alone. */
  lemma {:induction false} LoadsSpecialized(src: Source, st: SState, n: nat, k: nat)
    requires k <= n <= STACK_LEN && st.pc == 2 * k && |st.stack| == k && 2 * n < |st.code|
    requires forall j :: k <= j < n ==> Decode(st.code, 2 * j) == Some(Insn(LoadString, 0, []))
    requires Decode(st.code, 2 * n) == Some(Insn(Return, 0, []))
    ensures SpecFrom(src, st).Some? && SpecFrom(src, st).value.code == st.code
    decreases n - k
  {
    if k < n {
      LoadStringStep(src, st);
      LoadsSpecialized(src, SState(st.pc + 2, st.stack + [Plain(Str)], st.code, st.arena), n, k + 1);
    } else {
      ReturnStep(src, st);
    }
  }

  lemma ReturnStep(src: Source, st: SState)
    requires st.pc < |st.code| && Decode(st.code, st.pc) == Some(Insn(Return, 0, []))
    ensures SpecFrom(src, st) == Some(st)
  {}

  lemma LoadStringStep(src: Source, st: SState)
    requires st.pc < |st.code| && Decode(st.code, st.pc) == Some(Insn(LoadString, 0, [])) && |st.stack| < STACK_LEN
    ensures SpecFrom(src, st) == SpecFrom(src, SState(st.pc + 2, st.stack + [Plain(Str)], st.code, st.arena))
  {
    assert SStep(src, st) == Some(SState(st.pc + 2, st.stack + [Plain(Str)], st.code, st.arena));
  }

  lemma LoadTurn(env: Env, code: seq<byte>, st: RState)
    requires env.Valid() && st.pc < |code| && Decode(code, st.pc) == Some(Insn(LoadString, 0, []))
    ensures Step(env, code, st) == Pushed(st.stack, Ok(VStr(StrReg([], PlainLiteral))), st.pc + 2)
  {}

  lemma RunTurn(env: Env, code: seq<byte>, st: RState, t: Turn)
    requires env.Valid() && Step(env, code, st) == t && (t.Goto? ==> st.pc < t.pc)
    ensures Run(env, code, st) == if t.Halt? then t.o else Run(env, code, RState(t.pc, t.stack))
  {}

  ghost predicate LoadAt(code: seq<byte>, j: nat) {
    2 * j < |code| && Decode(code, 2 * j) == Some(Insn(LoadString, 0, []))
  }

  lemma {:induction false} DeepRuns(env: Env, code: seq<byte>, k: nat, st: RState)
    requires env.Valid() && st.pc == 2 * k && |st.stack| == k <= CAPACITY
    requires forall j :: 0 <= j <= CAPACITY ==> LoadAt(code, j)
    ensures Run(env, code, st) == Overflow
    decreases CAPACITY - k
  {
    assert LoadAt(code, k);
    LoadTurn(env, code, st);
    var t := Pushed(st.stack, Ok(VStr(StrReg([], PlainLiteral))), st.pc + 2);
    RunTurn(env, code, st, t);
    if k < CAPACITY {
      DeepRuns(env, code, k + 1, RState(t.pc, t.stack));
    }
  }

  lemma LoadRegRuns(env: Env, code: seq<byte>, pc: nat, r: Regs)
    requires env.Valid() && Shaped(r) && pc < |code| && Decode(code, pc) == Some(Insn(LoadString, 0, []))
    ensures if r.top >= STACK_LEN - 1 then RegRun(env, code, pc, r) == Overflow
            else
              var r' := PushCell(r, Chars(StrReg([], PlainLiteral)), None);
              Shaped(r') && r'.top == r.top + 1 && RegRun(env, code, pc, r) == RegRun(env, code, pc + 2, r')
  {}

  lemma {:induction false} DeepRegRuns(env: Env, code: seq<byte>, k: nat, r: Regs)
    requires env.Valid() && k <= CAPACITY && Shaped(r) && r.top == STACK_EMPTY + k
    requires forall j :: 0 <= j <= CAPACITY ==> LoadAt(code, j)
    ensures RegRun(env, code, 2 * k, r) == Overflow
    decreases CAPACITY - k
  {
    assert LoadAt(code, k);
    LoadRegRuns(env, code, 2 * k, r);
    if k < CAPACITY {
      DeepRegRuns(env, code, k + 1, PushCell(r, Chars(StrReg([], PlainLiteral)), None));
    }
  }

  /** Nine or ten loads are linked, and every run of them trips the interpreter's stack check. */
  lemma DeepProgramOverflows(src: Source, env: Env, n: nat, e: seq<Cell>)
    requires env.Valid() && CAPACITY < n <= STACK_LEN && |e| == STACK_LEN
    ensures IsLinked(Deep(n), src)
    ensures FinalCode(Deep(n), src) == Deep(n)
    ensures Run(env, Deep(n), RState(0, [])) == Overflow && RegRun(env, Deep(n), 0, RegInit(e)) == Overflow
  {
    DeepAccepted(src.symtab, n, 0);
    DeepSuffix(n, 0);
    forall j | 0 <= j <= n ensures Decode(Deep(n), 2 * j) == Some(Insn(if j < n then LoadString else Return, 0, [])) {
      DeepDecode(n, j);
    }
    LoadsSpecialized(src, Start(Deep(n)), n, 0);
    forall j | 0 <= j <= CAPACITY ensures LoadAt(Deep(n), j) {
      DeepDecode(n, j);
    }
    DeepRuns(env, Deep(n), 0, RState(0, []));
    DeepRegRuns(env, Deep(n), 0, RegInit(e));
  }
}
