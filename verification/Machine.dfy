/** The interpreter's loop and its stack, with the two topmost entries cached in registers. */
module Machine {
  import opened Words
  import opened Opcodes
  import opened Validator
  import opened Fields
  import opened Specializer
  import opened Interpreter
  import opened Linked
  import opened Soundness
  import opened Registers
  import opened RegisterRuns
  import opened StringCompare
  import Glob

  /** What an instruction comes to. */
  datatype Done = Onward(pc: nat) | End(o: Outcome)

  /** struct estack with the four registers beside it. */
  class Estack {
    const e: array<Cell>
    var top: nat
    var ax: Bits
    var bx: Bits
    var axT: RegType
    var bxT: RegType

    ghost predicate Valid()
      reads this
    {
      e.Length == STACK_LEN && STACK_EMPTY <= top < STACK_LEN
    }

    ghost function View(): Regs
      requires Valid()
      reads this, e
    {
      Regs(e[..], top, ax, bx, axT, bxT)
    }

    constructor (e: array<Cell>)
      requires e.Length == STACK_LEN
      ensures this.e == e && Valid() && View() == RegInit(e[..])
    {
      this.e, top := e, STACK_EMPTY;
      ax, bx, axT, bxT := Num(0), Num(0), Unknown, Unknown;
    }

    method Push()
      requires Valid() && top < STACK_LEN - 1
      modifies this, e
      ensures Valid() && View() == PushRegs(old(View()))
    {
      e[top - 1] := Cell(bxT, Overwrite(e[top - 1].u, bx));
      bx, bxT := ax, axT;
      top := top + 1;
    }

    method Pop()
      requires Valid() && top > STACK_EMPTY
      modifies this
      ensures Valid() && View() == PopRegs(old(View()))
    {
      ax, axT := bx, bxT;
      bx, bxT := First(e[top - 2].u), e[top - 2].ty;
      top := top - 1;
    }

    /** The turn that the state now stands for. */
    ghost predicate Is(c: RTurn, d: Done)
      reads this, e
    {
      match c case Stop(o) => d == End(o) case Go(pc, r) => d == Onward(pc) && Valid() && View() == r
    }

    method ExecPush(env: Env, i: Insn, next: nat) returns (d: Done)
      requires Valid() && env.Valid() && IsPush(i.op)
      modifies this, e
      ensures Is(RegPush(env, i, next, old(View())), d)
    {
      if top >= STACK_LEN - 1 {
        return End(Overflow);
      }
      var u, ty: Option<RegType> := Raw(Num(0)), None;
      match i.op {
        case LoadRef(ref) =>
          var v := LoadReference(env, ref, i.arg);
          if v.Bad? {
            return End(v.o);
          }
          u := ContentOf(v.value);
          ty := if ref.FieldSequence? || ref.UserSequence? then None else Some(Str);
        case LoadString => u := Chars(StrReg(i.str, PlainLiteral));
        case LoadStarGlob => u := Chars(StrReg(i.str, GlobLiteral));
        case LoadS64 => u := Raw(Num(Word(i.arg)));
        case GetContextRoot => u, ty := ContentOf(VPtr(ContextRoot)), Some(Ptr);
        case GetPayloadRoot => u, ty := ContentOf(VPtr(PayloadRoot)), Some(Ptr);
      }
      Push();
      if u.Raw? {
        ax, axT := u.b, S64;
      } else {
        e[top] := Cell(if ty.Some? then ty.value else e[top].ty, u);
      }
      return Onward(next);
    }

    method ExecBinary(op: Op, next: nat) returns (d: Done)
      requires Valid() && IsBinary(op) && top > STACK_EMPTY + 1
      modifies this, e
      ensures var r := old(View()); Is(RegBinary(op, next, r, StringsOrder(r), StringsMatch(r)), d)
    {
      var result, ty: RegType := 0, S64;
      if op.CmpString? || op.CmpGlob? {
        var b, a := e[top - 1].u, e[top].u;
        if !b.Chars? || !a.Chars? {
          return End(Wild);
        }
        if op.CmpString? {
          var order := StackStrcmp(b.s, a.s);
          if order.None? {
            return End(Wild);
          }
          result := if Holds(op.c, order.value) then 1 else 0;
        } else {
          var glob := GlobMatch(b.s, a.s);
          result := if glob != op.ne then 1 else 0;
        }
      } else {
        if op.Bit? && (!IsInt(axT) || !IsInt(bxT)) {
          return End(Error);
        }
        if !bx.Num? || !ax.Num? {
          return End(Wild);
        }
        if op.CmpS64? {
          result := if Holds(op.c, Order(bx.w, ax.w)) then 1 else 0;
        } else {
          var x := BitResult(op.b, bx.w, ax.w);
          if x.Bad? {
            return End(x.o);
          }
          result, ty := x.value.v, U64;
        }
      }
      Pop();
      ax, axT := Num(result), ty;
      return Onward(next);
    }

    method ExecTop(env: Env, i: Insn, next: nat) returns (d: Done)
      requires Valid() && env.Valid() && top > STACK_EMPTY && IsTop(i.op)
      modifies this, e
      ensures Is(RegTop(env, i, next, old(View())), d)
    {
      if i.op.BitNot? {
        if !ax.Num? {
          return End(Wild);
        }
        ax, axT := Num(MODULUS - 1 - ax.w), S64;
      } else if i.op.UnaryS64? {
        if i.op.u != Plus {
          if !ax.Num? {
            return End(Wild);
          }
          ax, axT := Num(UnaryResult(i.op.u, ax.w).v), S64;
        }
      } else if i.op.LoadTyped? {
        var p := Target(e[top].u);
        if p.None? || !p.value.Obj? {
          return End(Wild);
        }
        var v := LoadMem(i.op.t, p.value.mem);
        if v.Bad? {
          return End(v.o);
        }
        if v.value.VInt? {
          ax, axT := Num(v.value.v), S64;
        } else {
          e[top] := Cell(Str, ContentOf(v.value));
        }
      } else {
        d := ExecFetch(env, i, next);
        return;
      }
      return Onward(next);
    }

    /** The instructions that rewrite the top entry and read it back into the registers. */
    method ExecFetch(env: Env, i: Insn, next: nat) returns (d: Done)
      requires Valid() && env.Valid() && top > STACK_EMPTY
      requires i.op.LoadField? || i.op.GetIndexU16? || i.op.GetIndexU64? || i.op.GetSymbol?
      modifies this, e
      ensures Is(RegTop(env, i, next, old(View())), d)
    {
      if i.op.GetSymbol? {
        return End(Error);
      }
      var target := Target(e[top].u);
      if target.None? {
        return End(Wild);
      }
      var p := target.value;
      var v, ty := Bad(Error), Ptr;
      if i.op.LoadField? {
        if p.Obj? {
          v, ty := LoadMem(p.ot, p.mem), LoadedType(p.ot);
        }
      } else {
        if i.arg !in env.gids {
          return End(Wild);
        }
        v := DynamicGetIndex(env, env.gids[i.arg], p);
      }
      if v.Bad? {
        return End(v.o);
      }
      e[top] := Cell(ty, ContentOf(v.value));
      ax, axT := First(e[top].u), e[top].ty;
      return Onward(next);
    }

    method ExecLogical(i: Insn, next: nat) returns (d: Done)
      requires Valid() && top > STACK_EMPTY && i.op.Logical?
      modifies this, e
      ensures Is(RegLogical(i, next, old(View())), d)
    {
      if !ax.Num? {
        return End(Wild);
      }
      if (ax.w != 0) == i.op.isOr {
        if i.op.isOr {
          ax := Num(1);
        }
        return Onward(i.arg);
      }
      Pop();
      return Onward(next);
    }

    /** One dispatched instruction. */
    method Dispatch(env: Env, i: Insn, pc: nat) returns (d: Done)
      requires Valid() && env.Valid()
      modifies this, e
      ensures Is(RegInsn(env, i, pc, old(View())), d)
    {
      var next := pc + Size(i);
      if IsPush(i.op) {
        d := ExecPush(env, i, next);
      } else if top <= STACK_EMPTY && (IsTop(i.op) || i.op.Logical? || i.op.Return? || i.op.ReturnS64?) {
        return End(Stuck);
      } else if IsBinary(i.op) {
        if top <= STACK_EMPTY + 1 {
          return End(Stuck);
        }
        d := ExecBinary(i.op, next);
      } else if IsTop(i.op) {
        d := ExecTop(env, i, next);
      } else {
        match i.op
        case Logical(_) => d := ExecLogical(i, next);
        case Return => return if !IsInt(axT) then End(Error) else End(Verdict(ax).o);
        case ReturnS64 => return End(Verdict(ax).o);
        case CastNop => return Onward(next);
        case CmpDoubleS64(_) => return End(Assertion);
        case GetAppContextRoot => return End(Assertion);
        case _ => return End(Error);
      }
    }
  }

  method GlobMatch(b: StrReg, a: StrReg) returns (m: bool)
    ensures m == GlobHolds(b, a)
  {
    if a.lit.GlobLiteral? {
      m := Glob.StarGlobMatch(a.data, b.data);
    } else {
      m := Glob.StarGlobMatch(b.data, a.data);
    }
  }

  /** lttng_bytecode_interpret on a linked filter program: the loop needs no bounds check and
      always ends, because the program was validated. */
  method Interpret(ghost code: seq<byte>, ghost src: Source, env: Env, final: seq<byte>, frame: array<Cell>)
      returns (o: Outcome)
    requires IsLinked(code, src) && RunsOn(env, code, src) && final == FinalCode(code, src) && frame.Length == STACK_LEN
    modifies frame
    ensures o == RegRun(env, final, 0, RegInit(old(frame[..]))) && o != Stuck
  {
    var stack := new Estack(frame);
    var pc := 0;
    ghost var v, goal := INIT, RegRun(env, final, 0, RegInit(frame[..]));
    while true
      invariant stack.Valid() && stack.e == frame && AtDepth(code, src, GState(pc, stack.View()), v)
      invariant RegRun(env, final, pc, stack.View()) == goal
      decreases |code| - pc
    {
      ghost var v' := RegStepSound(code, src, env, GState(pc, stack.View()), v);
      RegRunEnds(code, src, env, GState(pc, stack.View()), v);
      var d := stack.Dispatch(env, Decode(final, pc).value, pc);
      if d.End? {
        return d.o;
      }
      pc, v := d.pc, v';
    }
  }
}
