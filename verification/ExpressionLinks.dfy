/** Filter expressions and the specializer: which of them it links, and to what. */
module ExpressionLinks {
  import opened Words
  import opened Opcodes
  import opened Validator
  import opened Fields
  import opened Alignment
  import opened Specializer
  import opened Linked
  import opened Programs
  import opened Expressions

  // Types, as the fields and contexts are declared

  /** The declared type behind a name. */
  function DeclaredAs(src: Source, ctx: bool, sym: nat): Option<FieldType> {
    match SymbolAt(src.symtab, sym)
    case None => None
    case Some(name) =>
      if ctx then
        match ContextIndexFrom(src.ctx, name, 0) case None => None case Some(k) => Some(src.ctx[k].ty)
      else
        match Lookup(src.fields, name)
        case None => None
        case Some((k, _)) => LookupIsLookup(src.fields, name, 0); Some(src.fields[k].ty)
  }

  /** The type of a field or context, and the instruction that loads it. An integer is a number
      whatever its signedness, an unsigned enumeration is a number apart, and an array or a sequence
      is a text if it is encoded as one or belongs to a context. */
  function LoadedAs(ty: FieldType, ctx: bool): Option<(RegType, Op)> {
    match ty
    case Integer(s) => Some((S64, LoadTyped(if s then S64Obj else U64Obj)))
    case Enum(s) => Some((if s then S64 else U64, LoadField))
    case StringT => Some((Str, LoadTyped(StringObj)))
    case Array(e, _, text) => TextAs(e, text, ctx)
    case Sequence(e, text) => TextAs(e, text, ctx)
    case _ => None
  }

  function TextAs(e: Elem, text: bool, ctx: bool): Option<(RegType, Op)> {
    if !Bytewise(e) || !(text || ctx) then None else Some((Str, LoadTyped(if ctx then StringObj else StringSequence)))
  }

  /** The element behind an index: any element of a sequence, or one that the array has. */
  function ElementOf(ty: FieldType, index: nat): Option<Elem> {
    match ty
    case Array(e, length, text) => if Bytewise(e) && !text && index < length then Some(e) else None
    case Sequence(e, text) => if Bytewise(e) && !text then Some(e) else None
    case _ => None
  }

  function ElementType(e: Elem): ObjType
    requires Bytewise(e)
  {
    if e.size == 8 then (if e.signed then S8 else U8)
    else if e.size == 16 then (if e.signed then S16 else U16)
    else if e.size == 32 then (if e.signed then S32 else U32)
    else (if e.signed then S64Obj else U64Obj)
  }

  /** The type of a leaf, and the instruction that loads it, if it resolves. */
  function LeafType(src: Source, x: Leaf): Option<(RegType, Op)> {
    match x
    case Constant(_) => Some((S64, LoadS64))
    case Quoted(_, glob) => Some(if glob then (StarGlob, LoadStarGlob) else (Str, LoadString))
    case Reference(ref, _) => Some((if ref == FieldS64 || ref == ContextS64 then S64 else Str, LoadRef(ref)))
    case Named(ctx, sym) =>
      (match DeclaredAs(src, ctx, sym) case None => None case Some(ty) => LoadedAs(ty, ctx))
    case Element(sym, index) =>
      match DeclaredAs(src, false, sym)
      case None => None
      case Some(ty) =>
        match ElementOf(ty, index) case None => None case Some(e) => Some((S64, LoadTyped(ElementType(e))))
  }

  /** What the specializer finds on its stack behind an expression, the value on top. A comparator
      LE leaves its first operand below. */
  function Left(src: Source, e: Expr): (s: seq<Entry>)
    ensures |s| >= 1
  {
    match e
    case Atom(x) => [Plain(if LeafType(src, x).Some? then LeafType(src, x).value.0 else Unknown)]
    case Compare(c, l, r) => Folds(c == LE, Left(src, l) + Left(src, r))
    case Combine(_, l, r) => Folds(false, Left(src, l) + Left(src, r))
    case Apply(_, e) => Left(src, e)
    case Invert(e) => Left(src, e)
    case Cast(e) => Left(src, e)
    case Logic(_, l, r) => Pop(Left(src, l)) + Left(src, r)
  }

  /** A number in the place of the two topmost entries, or of the topmost only. */
  function Folds(keeps: bool, s: seq<Entry>): seq<Entry>
    requires |s| >= 2
  {
    if keeps then SetAx(s, Plain(S64)) else SetAx(Pop(s), Plain(S64))
  }

  /** The type on top. */
  function Top(src: Source, e: Expr): RegType { Ax(Left(src, e)).ty }

  /** The type that a comparator finds below its second operand. */
  function Below(src: Source, l: Expr, r: Expr): RegType {
    if |Left(src, r)| == 1 then Top(src, l) else Bx(Left(src, r)).ty
  }

  /** The comparator for two operand types, if there is one. */
  function Picked(c: CmpOp, below: RegType, top: RegType): Option<Op> {
    var equality := c == EQ || c == NE;
    if top == S64 then Some(if below == S64 then CmpS64(c) else CmpDoubleS64(c))
    else if equality && ((top == Str && below == StarGlob) || top == StarGlob) then Some(CmpGlob(c == NE))
    else if top == Str then Some(CmpString(c))
    else None
  }

  predicate Resolved(src: Source, e: Expr) {
    match e
    case Atom(x) => LeafType(src, x).Some?
    case Compare(c, l, r) => Resolved(src, l) && Resolved(src, r) && Picked(c, Below(src, l, r), Top(src, r)).Some?
    case Combine(_, l, r) => Resolved(src, l) && Resolved(src, r)
    case Apply(_, e) => Resolved(src, e) && Top(src, e) == S64
    case Invert(e) => Resolved(src, e)
    case Cast(e) => Resolved(src, e) && Top(src, e) == S64
    case Logic(_, l, r) => Resolved(src, l) && Resolved(src, r)
  }

  /** The stack that specializing an expression takes. */
  function Reach(src: Source, e: Expr): (n: nat)
    ensures n >= |Left(src, e)|
  {
    match e
    case Atom(_) => 1
    case Compare(_, l, r) => Max(Reach(src, l), |Left(src, l)| + Reach(src, r))
    case Combine(_, l, r) => Max(Reach(src, l), |Left(src, l)| + Reach(src, r))
    case Apply(_, e) => Reach(src, e)
    case Invert(e) => Reach(src, e)
    case Cast(e) => Reach(src, e)
    case Logic(_, l, r) => Max(Reach(src, l), |Left(src, l)| - 1 + Reach(src, r))
  }

  function LeafRecords(x: Leaf): nat { if x.Named? then 1 else if x.Element? then 2 else 0 }

  /** The lookup records that an expression needs. */
  function Records(e: Expr): nat {
    match e
    case Atom(x) => LeafRecords(x)
    case Compare(_, l, r) => Records(l) + Records(r)
    case Combine(_, l, r) => Records(l) + Records(r)
    case Apply(_, e) => Records(e)
    case Invert(e) => Records(e)
    case Cast(e) => Records(e)
    case Logic(_, l, r) => Records(l) + Records(r)
  }

  // The rewritten instructions, with their records from an offset on

  function LeafOuts(src: Source, x: Leaf, at: nat): seq<Insn> {
    LeafAccess(x, at, if LeafType(src, x).Some? then LeafType(src, x).value.1 else LoadField)
  }

  /** A leaf whose value is loaded by an instruction. */
  function LeafAccess(x: Leaf, at: nat, op: Op): seq<Insn> {
    match x
    case Named(ctx, _) =>
      [Simple(if ctx then GetContextRoot else GetPayloadRoot), Insn(GetIndexU16, at, []), Simple(op)]
    case Element(_, _) =>
      [Simple(GetPayloadRoot), Insn(GetIndexU16, at, []), Insn(GetIndexU64, at + GID_SIZE, []), Simple(op)]
    case _ => LeafCode(x)
  }

  function Compared(src: Source, c: CmpOp, l: Expr, r: Expr): Insn {
    var op := Picked(c, Below(src, l, r), Top(src, r));
    Simple(if op.Some? then op.value else Cmp(c))
  }

  function Outs(src: Source, e: Expr, pc: nat, at: nat): seq<Insn> {
    match e
    case Atom(x) => LeafOuts(src, x, at)
    case Compare(c, l, r) => Outs(src, l, pc, at) + (Outs(src, r, pc + Len(l), After(l, at)) + [Compared(src, c, l, r)])
    case Combine(b, l, r) => Outs(src, l, pc, at) + (Outs(src, r, pc + Len(l), After(l, at)) + [Simple(Bit(b))])
    case Apply(u, e) => Outs(src, e, pc, at) + [Simple(UnaryS64(u))]
    case Invert(e) => Outs(src, e, pc, at) + [Simple(BitNot)]
    case Cast(e) => Outs(src, e, pc, at) + [Simple(CastNop)]
    case Logic(isOr, l, r) =>
      Outs(src, l, pc, at) + ([Skip(isOr, l, r, pc)] + Outs(src, r, pc + Len(l) + 3, After(l, at)))
  }

  /** Where the records behind those of an expression go. */
  function After(e: Expr, at: nat): nat { at + GID_SIZE * Records(e) }

  // The specializer over a list

  /** What the pass makes of some instructions: their rewrites, its stack and its lookup data. */
  datatype Pass = Pass(outs: seq<Insn>, es: seq<Entry>, arena: Arena)

  function Rewrite(src: Source, ins: seq<Insn>, es: seq<Entry>, arena: Arena): Option<Pass>
    decreases |ins|, 1
  {
    if ins == [] then Some(Pass([], es, arena)) else RewriteFirst(src, ins, es, arena)
  }

  function RewriteFirst(src: Source, ins: seq<Insn>, es: seq<Entry>, arena: Arena): Option<Pass>
    requires ins != []
    decreases |ins|, 0
  {
    match SpecInsn(src, ins[0], es, arena)
    case None => None
    case Some(o) => Behind([Insn(o.op, o.arg, ins[0].str)], Rewrite(src, ins[1..], o.stack, o.arena))
  }

  function Behind(outs: seq<Insn>, p: Option<Pass>): Option<Pass> {
    if p.None? then None else Some(Pass(outs + p.value.outs, p.value.es, p.value.arena))
  }

  lemma BehindBoth(a: seq<Insn>, b: seq<Insn>, p: Option<Pass>)
    ensures Behind(a, Behind(b, p)) == Behind(a + b, p)
  {
    if p.Some? {
      Associative(a, b, p.value.outs);
    }
  }

  lemma {:induction false} RewriteAppend(src: Source, a: seq<Insn>, b: seq<Insn>, es: seq<Entry>, arena: Arena)
    ensures Rewrite(src, a + b, es, arena) ==
            match Rewrite(src, a, es, arena)
            case None => None
            case Some(p) => Behind(p.outs, Rewrite(src, b, p.es, p.arena))
    decreases |a|
  {
    if a == [] {
      assert a + b == b;
      var q := Rewrite(src, b, es, arena);
      assert q.Some? ==> [] + q.value.outs == q.value.outs;
    } else {
      assert (a + b)[0] == a[0] && (a + b)[1..] == a[1..] + b;
      var x := SpecInsn(src, a[0], es, arena);
      if x.Some? {
        var i := Insn(x.value.op, x.value.arg, a[0].str);
        RewriteAppend(src, a[1..], b, x.value.stack, x.value.arena);
        var p := Rewrite(src, a[1..], x.value.stack, x.value.arena);
        if p.Some? {
          BehindBoth([i], p.value.outs, Rewrite(src, b, p.value.es, p.value.arena));
        }
      }
    }
  }

  /** The outcome, if all is well. */
  function Result(ok: bool, outs: seq<Insn>, es: seq<Entry>, arena: Arena): Option<Pass> {
    if ok then Some(Pass(outs, es, arena)) else None
  }

  lemma OneRewritten(src: Source, i: Insn, es: seq<Entry>, arena: Arena, ok: bool, o: Out)
    requires SpecInsn(src, i, es, arena) == if ok then Some(o) else None
    ensures Rewrite(src, [i], es, arena) == Result(ok, [Insn(o.op, o.arg, i.str)], o.stack, o.arena)
  {
    var out := [Insn(o.op, o.arg, i.str)];
    assert [i][1..] == [] && out + [] == out;
    assert Rewrite(src, [], o.stack, o.arena) == Some(Pass([], o.stack, o.arena));
    assert Rewrite(src, [i], es, arena) == RewriteFirst(src, [i], es, arena);
  }

  lemma InTurn(src: Source, a: seq<Insn>, b: seq<Insn>, es: seq<Entry>, arena: Arena, ok: bool, p: Pass, ok': bool,
               q: Pass)
    requires Rewrite(src, a, es, arena) == Result(ok, p.outs, p.es, p.arena)
    requires ok ==> Rewrite(src, b, p.es, p.arena) == Result(ok', q.outs, q.es, q.arena)
    ensures Rewrite(src, a + b, es, arena) == Result(ok && ok', p.outs + q.outs, q.es, q.arena)
  {
    RewriteAppend(src, a, b, es, arena);
  }

  // Records

  /** The lookup data with one more record. */
  function Put(arena: Arena, g: Gid): Arena { Arena(arena.gids[arena.len := g], arena.len + GID_SIZE) }

  ghost predicate Packed(arena: Arena) { Divides(GID_ALIGN, arena.len) && arena.len <= MAX_DATA_LEN }

  lemma {:induction false} NothingMissing(a: nat, x: nat)
    requires a > 0 && Divides(a, x)
    ensures Missing(x, a) == 0
  {
    if x > 0 {
      NothingMissing(a, x - a);
    }
  }

  lemma PutIsPushed(arena: Arena, g: Gid)
    requires Packed(arena)
    ensures PushData(arena, g) ==
            if arena.len + GID_SIZE <= MAX_DATA_LEN then Some((arena.len, Put(arena, g))) else None
    ensures arena.len + GID_SIZE <= MAX_DATA_LEN ==> Packed(Put(arena, g))
  {
    NothingMissing(GID_ALIGN, arena.len);
    assert Divides(GID_ALIGN, GID_SIZE) by {
      assert Divides(GID_ALIGN, 16);
      DividesSum(GID_ALIGN, 16, 16);
      DividesSum(GID_ALIGN, 32, 16);
    }
    DividesSum(GID_ALIGN, arena.len, GID_SIZE);
  }

  /** The record of a field or a context. */
  function NameGid(src: Source, ctx: bool, sym: nat): Gid
    requires DeclaredAs(src, ctx, sym).Some? && ObjTypeOf(DeclaredAs(src, ctx, sym).value, ctx).Some?
  {
    var name, ty := SymbolAt(src.symtab, sym).value, DeclaredAs(src, ctx, sym).value;
    var ot := ObjTypeOf(ty, ctx).value;
    if ctx then Gid(0, ContextIndexFrom(src.ctx, name, 0).value, ot, 0, Some(ty))
    else Gid(Lookup(src.fields, name).value.1, 0, ot, 0, Some(ty))
  }

  function Root(ctx: bool): Load { if ctx then RootContext else RootPayload }

  /** A name denotes an object. */
  predicate Denotes(src: Source, ctx: bool, sym: nat) {
    DeclaredAs(src, ctx, sym).Some? && ObjTypeOf(DeclaredAs(src, ctx, sym).value, ctx).Some?
  }

  function Denoted(src: Source, ctx: bool, sym: nat): Entry
    requires Denotes(src, ctx, sym)
  {
    var ty := DeclaredAs(src, ctx, sym).value;
    Entry(Ptr, ObjectLoad(ObjTypeOf(ty, ctx).value, ty))
  }

  lemma SymbolSpecialized(src: Source, ctx: bool, sym: nat, es: seq<Entry>, below: seq<Entry>, arena: Arena)
    requires Packed(arena) && es == below + [Entry(Ptr, Root(ctx))]
    ensures SpecInsn(src, Insn(GetSymbol, sym, []), es, arena) ==
            if Denotes(src, ctx, sym) && arena.len + GID_SIZE <= MAX_DATA_LEN
            then Some(Out(GetIndexU16, arena.len, below + [Denoted(src, ctx, sym)], Put(arena, NameGid(src, ctx, sym))))
            else None
  {
    if Denotes(src, ctx, sym) {
      var g, e := NameGid(src, ctx, sym), Denoted(src, ctx, sym);
      PutIsPushed(arena, g);
      assert SetAx(es, e) == below + [e];
    }
  }

  lemma LoadSpecialized(src: Source, ty: FieldType, ctx: bool, ot: ObjType, es: seq<Entry>, below: seq<Entry>,
                        arena: Arena)
    requires ObjTypeOf(ty, ctx) == Some(ot) && es == below + [Entry(Ptr, ObjectLoad(ot, ty))]
    ensures SpecInsn(src, Simple(LoadField), es, arena) ==
            match LoadedAs(ty, ctx) case None => None case Some((t, op)) => Some(Out(op, 0, below + [Plain(t)], arena))
  {
    if LoadTarget(ot).Some? {
      var t := LoadTarget(ot).value.0;
      assert SetAx(es, Plain(t)) == below + [Plain(t)];
    }
  }

  // Leaves

  lemma RootSpecialized(src: Source, ctx: bool, es: seq<Entry>, arena: Arena)
    ensures var i := Simple(if ctx then GetContextRoot else GetPayloadRoot);
            SpecInsn(src, i, es, arena) ==
            if |es| + 1 <= STACK_LEN then Some(Out(i.op, 0, es + [Entry(Ptr, Root(ctx))], arena)) else None
  {
  }

  /** A root and a name. */
  lemma NameRewritten(src: Source, ctx: bool, root: Insn, sym: nat, es: seq<Entry>, arena: Arena, ok: bool, e: Entry,
                      g: Gid)
    requires Packed(arena) && root == Simple(if ctx then GetContextRoot else GetPayloadRoot)
    requires ok == (|es| + 1 <= STACK_LEN && Denotes(src, ctx, sym) && arena.len + GID_SIZE <= MAX_DATA_LEN)
    requires Denotes(src, ctx, sym) ==> e == Denoted(src, ctx, sym) && g == NameGid(src, ctx, sym)
    ensures Rewrite(src, [root] + [Insn(GetSymbol, sym, [])], es, arena) ==
            Result(ok, [root] + [Insn(GetIndexU16, arena.len, [])], es + [e], Put(arena, g))
  {
    var i, o, top := Insn(GetSymbol, sym, []), Insn(GetIndexU16, arena.len, []), es + [Entry(Ptr, Root(ctx))];
    var room, fine := |es| + 1 <= STACK_LEN, Denotes(src, ctx, sym) && arena.len + GID_SIZE <= MAX_DATA_LEN;
    RootSpecialized(src, ctx, es, arena);
    OneRewritten(src, root, es, arena, room, Out(root.op, 0, top, arena));
    SymbolSpecialized(src, ctx, sym, top, es, arena);
    OneRewritten(src, i, top, arena, fine, Out(GetIndexU16, arena.len, es + [e], Put(arena, g)));
    InTurn(src, [root], [i], es, arena, room, Pass([root], top, arena), fine, Pass([o], es + [e], Put(arena, g)));
  }

  lemma LoadRewritten(src: Source, ty: FieldType, ctx: bool, es: seq<Entry>, below: seq<Entry>, arena: Arena, ok: bool,
                      t: RegType, op: Op)
    requires ObjTypeOf(ty, ctx).Some? && es == below + [Entry(Ptr, ObjectLoad(ObjTypeOf(ty, ctx).value, ty))]
    requires ok == LoadedAs(ty, ctx).Some? && (ok ==> LoadedAs(ty, ctx) == Some((t, op)))
    ensures Rewrite(src, [Simple(LoadField)], es, arena) == Result(ok, [Simple(op)], below + [Plain(t)], arena)
  {
    LoadSpecialized(src, ty, ctx, ObjTypeOf(ty, ctx).value, es, below, arena);
    OneRewritten(src, Simple(LoadField), es, arena, ok, Out(op, 0, below + [Plain(t)], arena));
  }

  lemma LoadedDenotes(ty: FieldType, ctx: bool)
    ensures LoadedAs(ty, ctx).Some? ==> ObjTypeOf(ty, ctx).Some?
  {
  }

  /** The data behind the records of a leaf. */
  function LeafStored(src: Source, x: Leaf, arena: Arena): Arena {
    if LeafType(src, x).None? then arena
    else match x
    case Named(ctx, sym) => LoadedDenotes(DeclaredAs(src, ctx, sym).value, ctx); Put(arena, NameGid(src, ctx, sym))
    case Element(sym, index) =>
      var ty := DeclaredAs(src, false, sym).value;
      Put(Put(arena, NameGid(src, false, sym)), ElemGid(ElementOf(ty, index).value, index))
    case _ => arena
  }

  lemma NamedRewritten(src: Source, x: Leaf, es: seq<Entry>, arena: Arena, ok: bool, t: RegType, op: Op, end: Arena)
    requires x.Named? && Packed(arena)
    requires ok == (LeafType(src, x).Some? && |es| + 1 <= STACK_LEN && arena.len + GID_SIZE <= MAX_DATA_LEN)
    requires ok ==> LeafType(src, x) == Some((t, op)) && end == LeafStored(src, x, arena)
    ensures Rewrite(src, LeafCode(x), es, arena) ==
            Result(ok, ([LeafCode(x)[0]] + [Insn(GetIndexU16, arena.len, [])]) + [Simple(op)], es + [Plain(t)], end)
  {
    var code := LeafCode(x);
    assert code == ([code[0]] + [code[1]]) + [code[2]];
    var named := [code[0]] + [Insn(GetIndexU16, arena.len, [])];
    var found := |es| + 1 <= STACK_LEN && Denotes(src, x.ctx, x.sym) && arena.len + GID_SIZE <= MAX_DATA_LEN;
    if Denotes(src, x.ctx, x.sym) {
      var ty, e, g := DeclaredAs(src, x.ctx, x.sym).value, Denoted(src, x.ctx, x.sym), NameGid(src, x.ctx, x.sym);
      NameRewritten(src, x.ctx, code[0], x.sym, es, arena, found, e, g);
      var fine := LoadedAs(ty, x.ctx).Some?;
      LoadRewritten(src, ty, x.ctx, es + [e], es, Put(arena, g), fine, if fine then LoadedAs(ty, x.ctx).value.0 else t,
                    if fine then LoadedAs(ty, x.ctx).value.1 else op);
      if found && fine {
        InTurn(src, [code[0]] + [code[1]], [code[2]], es, arena, found, Pass(named, es + [e], Put(arena, g)), fine,
               Pass([Simple(op)], es + [Plain(t)], Put(arena, g)));
      } else {
        RewriteAppend(src, [code[0]] + [code[1]], [code[2]], es, arena);
      }
    } else {
      var e, g := Plain(S64), Gid(0, 0, S8, 0, None);
      NameRewritten(src, x.ctx, code[0], x.sym, es, arena, found, e, g);
      RewriteAppend(src, [code[0]] + [code[1]], [code[2]], es, arena);
      if DeclaredAs(src, x.ctx, x.sym).Some? {
        LoadedDenotes(DeclaredAs(src, x.ctx, x.sym).value, x.ctx);
      }
    }
  }

  lemma IndexSpecialized(src: Source, ty: FieldType, index: word, es: seq<Entry>, below: seq<Entry>, arena: Arena)
    requires Packed(arena) && ObjTypeOf(ty, false).Some?
    requires es == below + [Entry(Ptr, ObjectLoad(ObjTypeOf(ty, false).value, ty))]
    ensures SpecInsn(src, Insn(GetIndexU64, index, []), es, arena) ==
            if ElementOf(ty, index).Some? && arena.len + GID_SIZE <= MAX_DATA_LEN
            then var e := ElementOf(ty, index).value;
                 Some(Out(GetIndexU64, arena.len, below + [Entry(Ptr, Object(ElementType(e), None))],
                          Put(arena, ElemGid(e, index))))
            else None
  {
    if ElementOf(ty, index).Some? {
      var e := ElementOf(ty, index).value;
      var v := Entry(Ptr, Object(ElementType(e), None));
      PutIsPushed(arena, ElemGid(e, index));
      assert SetAx(es, v) == below + [v];
    }
  }

  lemma ElementLoadRewritten(src: Source, e: Elem, es: seq<Entry>, below: seq<Entry>, arena: Arena)
    requires Bytewise(e) && es == below + [Entry(Ptr, Object(ElementType(e), None))]
    ensures Rewrite(src, [Simple(LoadField)], es, arena) ==
            Result(true, [Simple(LoadTyped(ElementType(e)))], below + [Plain(S64)], arena)
  {
    assert SetAx(es, Plain(S64)) == below + [Plain(S64)];
    OneRewritten(src, Simple(LoadField), es, arena, true,
                 Out(LoadTyped(ElementType(e)), 0, below + [Plain(S64)], arena));
  }

  /** An index and the load. */
  lemma IndexRewritten(src: Source, ty: FieldType, k: Insn, es: seq<Entry>, below: seq<Entry>, arena: Arena, ok: bool,
                       op: Op, end: Arena)
    requires Packed(arena) && ObjTypeOf(ty, false).Some? && k == Insn(GetIndexU64, k.arg, []) && k.arg < MODULUS
    requires es == below + [Entry(Ptr, ObjectLoad(ObjTypeOf(ty, false).value, ty))]
    requires ok == (ElementOf(ty, k.arg).Some? && arena.len + GID_SIZE <= MAX_DATA_LEN)
    requires ok ==> var e := ElementOf(ty, k.arg).value;
                    op == LoadTyped(ElementType(e)) && end == Put(arena, ElemGid(e, k.arg))
    ensures Rewrite(src, [k] + [Simple(LoadField)], es, arena) ==
            Result(ok, [Insn(GetIndexU64, arena.len, [])] + [Simple(op)], below + [Plain(S64)], end)
  {
    IndexSpecialized(src, ty, k.arg, es, below, arena);
    if ok {
      var e := ElementOf(ty, k.arg).value;
      var v := below + [Entry(Ptr, Object(ElementType(e), None))];
      OneRewritten(src, k, es, arena, true, Out(GetIndexU64, arena.len, v, end));
      ElementLoadRewritten(src, e, v, below, end);
      InTurn(src, [k], [Simple(LoadField)], es, arena, true, Pass([Insn(GetIndexU64, arena.len, [])], v, end), true,
             Pass([Simple(op)], below + [Plain(S64)], end));
    } else {
      OneRewritten(src, k, es, arena, false, Out(GetIndexU64, 0, es, arena));
      RewriteAppend(src, [k], [Simple(LoadField)], es, arena);
    }
  }

  lemma ElementRewritten(src: Source, x: Leaf, es: seq<Entry>, arena: Arena, ok: bool, op: Op, end: Arena)
    requires x.Element? && Packed(arena)
    requires ok == (LeafType(src, x).Some? && |es| + 1 <= STACK_LEN && arena.len + 2 * GID_SIZE <= MAX_DATA_LEN)
    requires ok ==> LeafType(src, x) == Some((S64, op)) && end == LeafStored(src, x, arena)
    ensures Rewrite(src, LeafCode(x), es, arena) ==
            Result(ok, ([LeafCode(x)[0]] + [Insn(GetIndexU16, arena.len, [])]) +
                       ([Insn(GetIndexU64, arena.len + GID_SIZE, [])] + [Simple(op)]), es + [Plain(S64)], end)
  {
    var code := LeafCode(x);
    var a, b := [code[0]] + [code[1]], [code[2]] + [code[3]];
    assert code == a + b;
    var found := |es| + 1 <= STACK_LEN && Denotes(src, false, x.sym) && arena.len + GID_SIZE <= MAX_DATA_LEN;
    if found {
      var ty, e, g := DeclaredAs(src, false, x.sym).value, Denoted(src, false, x.sym), NameGid(src, false, x.sym);
      NameRewritten(src, false, code[0], x.sym, es, arena, found, e, g);
      PutIsPushed(arena, g);
      IndexRewritten(src, ty, code[2], es + [e], es, Put(arena, g), ok, op, end);
      var named := Pass([code[0]] + [Insn(GetIndexU16, arena.len, [])], es + [e], Put(arena, g));
      InTurn(src, a, b, es, arena, true, named, ok,
             Pass([Insn(GetIndexU64, arena.len + GID_SIZE, [])] + [Simple(op)], es + [Plain(S64)], end));
    } else {
      var e, g := if Denotes(src, false, x.sym) then Denoted(src, false, x.sym) else Plain(S64),
                  if Denotes(src, false, x.sym) then NameGid(src, false, x.sym) else Gid(0, 0, S8, 0, None);
      NameRewritten(src, false, code[0], x.sym, es, arena, found, e, g);
      RewriteAppend(src, a, b, es, arena);
    }
  }

  lemma PushRewritten(src: Source, x: Leaf, i: Insn, es: seq<Entry>, arena: Arena, ok: bool, t: RegType)
    requires !x.Named? && !x.Element? && LeafCode(x) == [i] && LeafType(src, x).value.0 == t
    requires ok == (|es| + 1 <= STACK_LEN)
    ensures Rewrite(src, [i], es, arena) == Result(ok, [i], es + [Plain(t)], arena)
  {
    assert [i][0] == i;
    OneRewritten(src, i, es, arena, ok, Out(i.op, i.arg, es + [Plain(t)], arena));
  }

  /** The specializer takes a leaf exactly when it resolves and there is room on the stack and for
      its records. */
  lemma LeafRewritten(src: Source, x: Leaf, es: seq<Entry>, arena: Arena, ok: bool, end: Arena, outs: seq<Insn>)
    requires Packed(arena) && end == LeafStored(src, x, arena) && outs == LeafOuts(src, x, arena.len)
    requires ok == (LeafType(src, x).Some? && |es| + 1 <= STACK_LEN && After(Atom(x), arena.len) <= MAX_DATA_LEN)
    ensures Rewrite(src, LeafCode(x), es, arena) == Result(ok, outs, es + Left(src, Atom(x)), end)
  {
    var t := Ax(Left(src, Atom(x))).ty;
    match x
    case Named(_, _) =>
      assert outs == ([outs[0]] + [outs[1]]) + [outs[2]];
      NamedRewritten(src, x, es, arena, ok, t, outs[2].op, end);
    case Element(_, _) =>
      assert outs == ([outs[0]] + [outs[1]]) + ([outs[2]] + [outs[3]]);
      ElementRewritten(src, x, es, arena, ok, outs[3].op, end);
    case _ =>
      PushRewritten(src, x, outs[0], es, arena, ok, t);
  }

  // Expressions

  /** The lookup data behind the records of an expression. */
  function Stored(src: Source, e: Expr, arena: Arena): Arena {
    match e
    case Atom(x) => LeafStored(src, x, arena)
    case Compare(_, l, r) => Stored(src, r, Stored(src, l, arena))
    case Combine(_, l, r) => Stored(src, r, Stored(src, l, arena))
    case Apply(_, e) => Stored(src, e, arena)
    case Invert(e) => Stored(src, e, arena)
    case Cast(e) => Stored(src, e, arena)
    case Logic(_, l, r) => Stored(src, r, Stored(src, l, arena))
  }

  lemma LeafStoredPacked(src: Source, x: Leaf, arena: Arena)
    requires Packed(arena) && LeafType(src, x).Some? && After(Atom(x), arena.len) <= MAX_DATA_LEN
    ensures Packed(LeafStored(src, x, arena)) && LeafStored(src, x, arena).len == After(Atom(x), arena.len)
  {
    if x.Named? {
      LoadedDenotes(DeclaredAs(src, x.ctx, x.sym).value, x.ctx);
      PutIsPushed(arena, NameGid(src, x.ctx, x.sym));
    } else if x.Element? {
      var g := NameGid(src, false, x.sym);
      PutIsPushed(arena, g);
      PutIsPushed(Put(arena, g), ElemGid(ElementOf(DeclaredAs(src, false, x.sym).value, x.index).value, x.index));
    }
  }

  lemma {:induction false} StoredPacked(src: Source, e: Expr, arena: Arena)
    requires Packed(arena) && Resolved(src, e) && After(e, arena.len) <= MAX_DATA_LEN
    ensures Packed(Stored(src, e, arena)) && Stored(src, e, arena).len == After(e, arena.len)
    decreases e
  {
    match e
    case Atom(x) => LeafStoredPacked(src, x, arena);
    case Compare(_, l, r) =>
      StoredPacked(src, l, arena);
      StoredPacked(src, r, Stored(src, l, arena));
    case Combine(_, l, r) =>
      StoredPacked(src, l, arena);
      StoredPacked(src, r, Stored(src, l, arena));
    case Logic(_, l, r) =>
      StoredPacked(src, l, arena);
      StoredPacked(src, r, Stored(src, l, arena));
    case Apply(_, f) => StoredPacked(src, f, arena);
    case Invert(f) => StoredPacked(src, f, arena);
    case Cast(f) => StoredPacked(src, f, arena);
  }

  /** It resolves, with room on the stack above n entries and for its records. */
  predicate Links(src: Source, e: Expr, n: nat, len: nat) {
    Resolved(src, e) && n + Reach(src, e) <= STACK_LEN && After(e, len) <= MAX_DATA_LEN
  }

  ghost predicate LinksTo(src: Source, e: Expr, pc: nat, es: seq<Entry>, arena: Arena) {
    Rewrite(src, Compile(e, pc), es, arena) ==
    Result(Links(src, e, |es|, arena.len), Outs(src, e, pc, arena.len), es + Left(src, e), Stored(src, e, arena))
  }

  lemma UnaryInTurn(src: Source, a: seq<Insn>, i: Insn, es: seq<Entry>, arena: Arena, ok: bool, p: Pass, out: Op,
                    good: bool)
    requires Rewrite(src, a, es, arena) == Result(ok, p.outs, p.es, p.arena) && |p.es| >= 1
    requires i == Simple(i.op) &&
             match i.op
             case Unary(u) => out == UnaryS64(u) && good == (Ax(p.es).ty == S64)
             case CastToS64 => out == CastNop && good == (Ax(p.es).ty == S64)
             case BitNot => out == BitNot && good
             case _ => false
    ensures Rewrite(src, a + [i], es, arena) == Result(ok && good, p.outs + [Simple(out)], p.es, p.arena)
  {
    OneRewritten(src, i, p.es, p.arena, good, Out(out, 0, p.es, p.arena));
    InTurn(src, a, [i], es, arena, ok, p, good, Pass([Simple(out)], p.es, p.arena));
  }

  lemma PickedIsPicked(c: CmpOp, below: RegType, top: RegType)
    ensures PickCompare(c, top, below) == Picked(c, below, top)
  {
  }

  /** A comparator or a bit operator on two topmost entries. */
  lemma OperatorRewritten(src: Source, i: Insn, es: seq<Entry>, s: seq<Entry>, arena: Arena, good: bool, out: Insn)
    requires |s| >= 2 && i == Simple(i.op) && out == Simple(out.op)
    requires match i.op
             case Cmp(c) => var x := Picked(c, Bx(s).ty, Ax(s).ty); good == x.Some? && (good ==> x == Some(out.op))
             case Bit(_) => good && out == i
             case _ => false
    ensures Rewrite(src, [i], es + s, arena) == Result(good, [out], es + Folds(i.op == Cmp(LE), s), arena)
  {
    var st := es + s;
    assert Ax(st) == Ax(s) && Bx(st) == Bx(s);
    assert SetAx(st, Plain(S64)) == es + SetAx(s, Plain(S64));
    assert SetAx(Pop(st), Plain(S64)) == es + SetAx(Pop(s), Plain(S64));
    if i.op.Cmp? {
      PickedIsPicked(i.op.c, Bx(s).ty, Ax(s).ty);
    }
    OneRewritten(src, i, st, arena, good, Out(out.op, 0, es + Folds(i.op == Cmp(LE), s), arena));
  }

  /** Both operands and the operator. */
  lemma BinaryInTurn(src: Source, a: seq<Insn>, b: seq<Insn>, i: Insn, es: seq<Entry>, arena: Arena, ok: bool, p: Pass,
                     s: seq<Entry>, ok': bool, q: Pass, s': seq<Entry>, good: bool, out: Insn)
    requires Rewrite(src, a, es, arena) == Result(ok, p.outs, p.es, p.arena) && p.es == es + s && |s| >= 1
    requires ok ==> Rewrite(src, b, p.es, p.arena) == Result(ok', q.outs, q.es, q.arena)
    requires q.es == p.es + s' && |s'| >= 1 && i == Simple(i.op) && out == Simple(out.op)
    requires match i.op
             case Cmp(c) =>
               var x := Picked(c, Bx(s + s').ty, Ax(s + s').ty); good == x.Some? && (good ==> x == Some(out.op))
             case Bit(_) => good && out == i
             case _ => false
    ensures Rewrite(src, a + (b + [i]), es, arena) ==
            Result(ok && ok' && good, p.outs + (q.outs + [out]), es + Folds(i.op == Cmp(LE), s + s'), q.arena)
  {
    Associative(es, s, s');
    var r := Pass([out], es + Folds(i.op == Cmp(LE), s + s'), q.arena);
    OperatorRewritten(src, i, es, s + s', q.arena, good, out);
    if ok {
      InTurn(src, b, [i], p.es, p.arena, ok', q, good, r);
    }
    InTurn(src, a, b + [i], es, arena, ok, p, ok' && good, Pass(q.outs + [out], r.es, r.arena));
  }

  lemma LogicInTurn(src: Source, a: seq<Insn>, i: Insn, b: seq<Insn>, es: seq<Entry>, arena: Arena, ok: bool, p: Pass,
                    s: seq<Entry>, ok': bool, q: Pass)
    requires Rewrite(src, a, es, arena) == Result(ok, p.outs, p.es, p.arena) && p.es == es + s && |s| >= 1
    requires i.op.Logical? && i.str == []
    requires ok ==> Rewrite(src, b, es + Pop(s), p.arena) == Result(ok', q.outs, q.es, q.arena)
    ensures Rewrite(src, a + ([i] + b), es, arena) == Result(ok && ok', p.outs + ([i] + q.outs), q.es, q.arena)
  {
    assert Pop(p.es) == es + Pop(s);
    OneRewritten(src, i, p.es, p.arena, true, Out(i.op, i.arg, es + Pop(s), p.arena));
    if ok {
      InTurn(src, [i], b, p.es, p.arena, true, Pass([i], es + Pop(s), p.arena), ok', q);
    }
    InTurn(src, a, [i] + b, es, arena, ok, p, ok', Pass([i] + q.outs, q.es, q.arena));
  }

  lemma TopTwo(s: seq<Entry>, s': seq<Entry>)
    requires |s| >= 1 && |s'| >= 1
    ensures Ax(s + s') == Ax(s') && Bx(s + s') == if |s'| == 1 then Ax(s) else Bx(s')
  {
  }

  lemma PairLinks(src: Source, e: Expr, n: nat, len: nat, good: bool)
    requires (e.Compare? && good == Picked(e.c, Below(src, e.l, e.r), Top(src, e.r)).Some?) || (e.Combine? && good)
    ensures Links(src, e, n, len) ==
            (Links(src, e.l, n, len) && Links(src, e.r, n + |Left(src, e.l)|, After(e.l, len)) && good)
  {
  }

  lemma LogicLinks(src: Source, e: Expr, n: nat, len: nat)
    requires e.Logic?
    ensures Links(src, e, n, len) ==
            (Links(src, e.l, n, len) && Links(src, e.r, n + |Left(src, e.l)| - 1, After(e.l, len)))
  {
  }

  lemma {:induction false} ExpressionRewritten(src: Source, e: Expr, pc: nat, es: seq<Entry>, arena: Arena)
    requires Packed(arena)
    ensures LinksTo(src, e, pc, es, arena)
    decreases e, 1
  {
    match e
    case Atom(x) =>
      LeafRewritten(src, x, es, arena, Links(src, e, |es|, arena.len), Stored(src, e, arena),
                    Outs(src, e, pc, arena.len));
    case Compare(_, _, _) => CompareRewritten(src, e, pc, es, arena);
    case Combine(_, _, _) => CombineRewritten(src, e, pc, es, arena);
    case Logic(_, _, _) => LogicRewritten(src, e, pc, es, arena);
    case Apply(u, f) => SingleRewritten(src, e, f, Simple(Unary(u)), UnaryS64(u), pc, es, arena);
    case Invert(f) => SingleRewritten(src, e, f, Simple(BitNot), BitNot, pc, es, arena);
    case Cast(f) => SingleRewritten(src, e, f, Simple(CastToS64), CastNop, pc, es, arena);
  }

  /** What the pass makes of an expression. */
  function PassOf(src: Source, e: Expr, pc: nat, es: seq<Entry>, arena: Arena): Pass {
    Pass(Outs(src, e, pc, arena.len), es + Left(src, e), Stored(src, e, arena))
  }

  lemma {:induction false} SingleRewritten(src: Source, e: Expr, f: Expr, i: Insn, out: Op, pc: nat, es: seq<Entry>,
                                           arena: Arena)
    requires Packed(arena) && (e.Apply? || e.Invert? || e.Cast?) && e.e == f && i == Simple(i.op)
    requires if e.Apply? then i.op == Unary(e.u) && out == UnaryS64(e.u)
             else if e.Invert? then i.op == BitNot && out == BitNot
             else i.op == CastToS64 && out == CastNop
    ensures LinksTo(src, e, pc, es, arena)
    decreases e, 0
  {
    ExpressionRewritten(src, f, pc, es, arena);
    var p := PassOf(src, f, pc, es, arena);
    assert Ax(p.es) == Ax(Left(src, f));
    UnaryInTurn(src, Compile(f, pc), i, es, arena, Links(src, f, |es|, arena.len), p, out,
                e.Invert? || Top(src, f) == S64);
  }

  lemma {:induction false} CompareRewritten(src: Source, e: Expr, pc: nat, es: seq<Entry>, arena: Arena)
    requires Packed(arena) && e.Compare?
    ensures LinksTo(src, e, pc, es, arena)
    decreases e, 0
  {
    var l, r := e.l, e.r;
    var p := PassOf(src, l, pc, es, arena);
    var q := Pass(Outs(src, r, pc + Len(l), After(l, arena.len)), p.es + Left(src, r), Stored(src, r, p.arena));
    var good := Picked(e.c, Below(src, l, r), Top(src, r)).Some?;
    var ok, ok' := Links(src, l, |es|, arena.len), Links(src, r, |p.es|, After(l, arena.len));
    ExpressionRewritten(src, l, pc, es, arena);
    if ok {
      StoredPacked(src, l, arena);
      ExpressionRewritten(src, r, pc + Len(l), p.es, p.arena);
    }
    TopTwo(Left(src, l), Left(src, r));
    PairLinks(src, e, |es|, arena.len, good);
    BinaryInTurn(src, Compile(l, pc), Compile(r, pc + Len(l)), Simple(Cmp(e.c)), es, arena, ok, p, Left(src, l), ok', q,
                 Left(src, r), good, Compared(src, e.c, l, r));
  }

  lemma {:induction false} CombineRewritten(src: Source, e: Expr, pc: nat, es: seq<Entry>, arena: Arena)
    requires Packed(arena) && e.Combine?
    ensures LinksTo(src, e, pc, es, arena)
    decreases e, 0
  {
    var l, r := e.l, e.r;
    var p := PassOf(src, l, pc, es, arena);
    var q := Pass(Outs(src, r, pc + Len(l), After(l, arena.len)), p.es + Left(src, r), Stored(src, r, p.arena));
    var good := true;
    var ok, ok' := Links(src, l, |es|, arena.len), Links(src, r, |p.es|, After(l, arena.len));
    ExpressionRewritten(src, l, pc, es, arena);
    if ok {
      StoredPacked(src, l, arena);
      ExpressionRewritten(src, r, pc + Len(l), p.es, p.arena);
    }
    TopTwo(Left(src, l), Left(src, r));
    PairLinks(src, e, |es|, arena.len, good);
    BinaryInTurn(src, Compile(l, pc), Compile(r, pc + Len(l)), Simple(Bit(e.b)), es, arena, ok, p, Left(src, l), ok', q,
                 Left(src, r), good, Simple(Bit(e.b)));
  }

  lemma {:induction false} LogicRewritten(src: Source, e: Expr, pc: nat, es: seq<Entry>, arena: Arena)
    requires Packed(arena) && e.Logic?
    ensures LinksTo(src, e, pc, es, arena)
    decreases e, 0
  {
    var l, r, pc' := e.l, e.r, pc + Len(e.l) + 3;
    var p, es' := PassOf(src, l, pc, es, arena), es + Pop(Left(src, l));
    var q := Pass(Outs(src, r, pc', After(l, arena.len)), es' + Left(src, r), Stored(src, r, p.arena));
    var ok, ok' := Links(src, l, |es|, arena.len), Links(src, r, |es'|, After(l, arena.len));
    ExpressionRewritten(src, l, pc, es, arena);
    if ok {
      StoredPacked(src, l, arena);
      ExpressionRewritten(src, r, pc', es', p.arena);
    }
    LogicLinks(src, e, |es|, arena.len);
    Associative(es, Pop(Left(src, l)), Left(src, r));
    LogicInTurn(src, Compile(l, pc), Skip(e.isOr, l, r, pc), Compile(r, pc'), es, arena, ok, p, Left(src, l), ok', q);
  }

  // Whole programs

  lemma {:induction false} SpecializedExactly(src: Source, a: seq<Insn>, ret: Insn, es: seq<Entry>, arena: Arena)
    requires AllGoOn(a) && IsReturn(ret.op)
    ensures Specialized(src, a + [ret], es, arena) ==
            match Rewrite(src, a, es, arena) case None => None case Some(p) => Some((p.outs + [ret], p.arena))
    decreases |a|
  {
    if a == [] {
      assert a + [ret] == [ret];
    } else {
      assert (a + [ret])[0] == a[0] && (a + [ret])[1..] == a[1..] + [ret];
      assert Rewrite(src, a, es, arena) == RewriteFirst(src, a, es, arena);
      var x := SpecInsn(src, a[0], es, arena);
      if x.Some? {
        SpecializedExactly(src, a[1..], ret, x.value.stack, x.value.arena);
        var p, i := Rewrite(src, a[1..], x.value.stack, x.value.arena), Insn(x.value.op, x.value.arg, a[0].str);
        assert p.Some? ==> [i] + (p.value.outs + [ret]) == ([i] + p.value.outs) + [ret];
      }
    }
  }

  /** The program that an expression becomes. */
  function Linkage(src: Source, e: Expr, ret: Op): seq<Insn> { Outs(src, e, 0, 0) + [Simple(ret)] }

  const NONE := Arena(map[], 0)

  lemma ProgramSpecialized(src: Source, e: Expr, ret: Op)
    requires IsReturn(ret) && AllGoOn(Compile(e, 0))
    ensures Specialized(src, Program(e, ret), [], NONE) ==
            if Links(src, e, 0, 0) then Some((Linkage(src, e, ret), Stored(src, e, NONE))) else None
  {
    ExpressionRewritten(src, e, 0, [], NONE);
    SpecializedExactly(src, Compile(e, 0), Simple(ret), [], NONE);
  }

  /** The bytes of an expression are linked exactly when the expression is well typed and resolves,
      its value can be returned, and both passes have room for it; what they are linked to. */
  lemma LinkedExactly(src: Source, e: Expr, ret: Op)
    requires IsReturn(ret) && Spelled(e) && Len(e) < 0x1_0000
    ensures var code := Assemble(Program(e, ret));
            && (IsLinked(code, src) <==>
                  && WellTyped(e) && NamesIn(src.symtab, e) && CanReturn(ret, TypeOf(e)) && Depth(e) <= STACK_LEN
                  && Links(src, e, 0, 0))
            && (IsLinked(code, src) ==>
                  && AllEncodable(Linkage(src, e, ret)) && FinalCode(code, src) == Assemble(Linkage(src, e, ret))
                  && FinalGids(code, src) == Stored(src, e, NONE).gids)
  {
    var p := Program(e, ret);
    ValidatorExact(e, ret, src.symtab);
    ProgramEncodes(e, ret, src.symtab, p);
    ProgramSpecialized(src, e, ret);
    assert [] + Assemble(p) == Assemble(p);
    SpecializedIsFinal(src, Start(Assemble(p)), [], p);
    assert [] + Assemble(Linkage(src, e, ret)) == Assemble(Linkage(src, e, ret));
  }

  // What LE leaves behind

  predicate HasLe(e: Expr) {
    match e
    case Atom(_) => false
    case Compare(c, l, r) => c == LE || HasLe(l) || HasLe(r)
    case Combine(_, l, r) => HasLe(l) || HasLe(r)
    case Apply(_, e) => HasLe(e)
    case Invert(e) => HasLe(e)
    case Cast(e) => HasLe(e)
    case Logic(_, l, r) => HasLe(l) || HasLe(r)
  }

  /** Without LE the specializer needs no more of the stack than the validator. */
  lemma {:induction false} NothingLeft(src: Source, e: Expr)
    requires !HasLe(e)
    ensures |Left(src, e)| == 1 && Reach(src, e) == Depth(e)
  {
    match e
    case Atom(_) =>
    case Compare(_, l, r) =>
      NothingLeft(src, l);
      NothingLeft(src, r);
    case Combine(_, l, r) =>
      NothingLeft(src, l);
      NothingLeft(src, r);
    case Logic(_, l, r) =>
      NothingLeft(src, l);
      NothingLeft(src, r);
    case Apply(_, f) => NothingLeft(src, f);
    case Invert(f) => NothingLeft(src, f);
    case Cast(f) => NothingLeft(src, f);
  }

  /** n comparisons of constants joined by AND. */
  function Conjunction(c: CmpOp, n: nat): Expr
    requires n > 0
  {
    var one := Compare(c, Atom(Constant(1)), Atom(Constant(2)));
    if n == 1 then one else Logic(false, Conjunction(c, n - 1), one)
  }

  lemma {:induction false} ConjunctionTyped(symtab: seq<byte>, c: CmpOp, n: nat)
    requires n > 0
    ensures var e := Conjunction(c, n);
            && WellTyped(e) && Spelled(e) && NamesIn(symtab, e) && TypeOf(e) == S64 && Depth(e) == 2
            && Len(e) == 22 * n - 3 && Records(e) == 0
  {
    if n > 1 {
      ConjunctionTyped(symtab, c, n - 1);
    }
  }

  lemma {:induction false} ConjunctionMeasures(src: Source, c: CmpOp, n: nat)
    requires n > 0
    ensures var e := Conjunction(c, n);
            && Resolved(src, e) && |Left(src, e)| == (if c == LE then n + 1 else 1)
            && Reach(src, e) == if c == LE then n + 1 else 2
  {
    var x, y := Atom(Constant(1)), Atom(Constant(2));
    var one := Compare(c, x, y);
    assert Left(src, x) == Left(src, y) == [Plain(S64)];
    assert Resolved(src, x) && Resolved(src, y) && Below(src, x, y) == Top(src, y) == S64;
    assert Picked(c, S64, S64) == Some(CmpS64(c));
    assert |Left(src, one)| == (if c == LE then 2 else 1) && Reach(src, one) == 2 && Resolved(src, one);
    if n > 1 {
      ConjunctionMeasures(src, c, n - 1);
    }
  }

  /** The validator accepts a conjunction of any number of comparisons that fits a program, while the
      specializer takes no more than nine with LE, and as many as there are with another comparator. */
  lemma LongConjunction(src: Source, c: CmpOp, n: nat)
    requires n > 0 && Len(Conjunction(c, n)) < 0x1_0000
    ensures var code := Assemble(Program(Conjunction(c, n), Return));
            Accepts(code, src.symtab, INIT) && (IsLinked(code, src) <==> c != LE || n <= 9)
  {
    ConjunctionTyped(src.symtab, c, n);
    ConjunctionMeasures(src, c, n);
    ValidatorExact(Conjunction(c, n), Return, src.symtab);
    LinkedExactly(src, Conjunction(c, n), Return);
  }
}
