/** What a filter expression means on an event. */
module ExpressionValues {
  import opened Words
  import opened Opcodes
  import opened Validator
  import opened Fields
  import opened Specializer
  import opened StringCompare
  import opened Interpreter
  import opened Comparisons
  import opened Expressions
  import opened ExpressionLinks
  import Glob

  // Meaning

  /** The value of a field: an integer, or a text of its length. */
  function FieldValue(ty: FieldType, slot: Slot): Res<Value> {
    match (ty, slot)
    case (Integer(_), IntSlot(v)) => Ok(VInt(v))
    case (Enum(_), IntSlot(v)) => Ok(VInt(v))
    case (StringT, StrSlot(s)) => TextValue(s)
    case (Array(_, _, _), SeqSlot(len, data)) => CountedValue(len, data)
    case (Sequence(_, _), SeqSlot(len, data)) => CountedValue(len, data)
    case _ => Bad(Wild)
  }

  /** A text that is not there is an error. */
  function TextValue(s: Option<seq<byte>>): Res<Value> {
    if s.None? then Bad(Error) else Ok(VStr(StrReg(s.value, NotLiteral)))
  }

  function CountedValue(len: nat, data: Option<seq<byte>>): Res<Value> {
    if data.None? then Bad(Error)
    else if len > |data.value| then Bad(Wild)
    else Ok(VStr(StrReg(data.value[..len], NotLiteral)))
  }

  /** The value of a context; arrays and sequences must be encoded as text. */
  function ContextValue(ty: FieldType, v: CtxVal): Res<Value> {
    match ty
    case Integer(_) => Ok(VInt(v.i))
    case Enum(_) => Ok(VInt(v.i))
    case StringT => TextValue(v.s)
    case Array(_, _, text) => if text then TextValue(v.s) else Bad(Error)
    case Sequence(_, text) => if text then TextValue(v.s) else Bad(Error)
    case _ => Bad(Error)
  }

  /** The value of an element: the bytes at its offset, which is computed in 64 bits; a sequence is
      guarded by its length in bits. */
  function ElementValue(ty: FieldType, e: Elem, index: nat, slot: Slot): Res<Value>
    requires Bytewise(e)
  {
    var width := e.size / 8;
    var off := Word(index * width);
    if !slot.SeqSlot? then Bad(Wild)
    else if ty.Sequence? && off >= e.size * slot.len then Bad(Error)
    else if slot.data.None? || off + width > |slot.data.value| then Bad(Wild)
    else Ok(VInt(Extend(e.signed, slot.data.value[off..off + width])))
  }

  function NameValue(env: Env, symtab: seq<byte>, ctx: bool, sym: nat): Res<Value>
    requires env.Valid()
  {
    match SymbolAt(symtab, sym)
    case None => Bad(Error)
    case Some(name) =>
      if ctx then
        match ContextIndexFrom(env.ctx, name, 0)
        case None => Bad(Error)
        case Some(k) => ContextValue(env.ctx[k].ty, env.ctxVals[k])
      else
        match Lookup(env.fields, name)
        case None => Bad(Error)
        case Some((k, _)) => LookupIsLookup(env.fields, name, 0); FieldValue(env.fields[k].ty, env.slots[k])
  }

  function LeafValue(env: Env, symtab: seq<byte>, x: Leaf): Res<Value>
    requires env.Valid()
  {
    match x
    case Constant(v) => Ok(VInt(v))
    case Quoted(s, glob) => Ok(VStr(StrReg(s, if glob then GlobLiteral else PlainLiteral)))
    case Reference(ref, arg) => LoadReference(env, ref, arg)
    case Named(ctx, sym) => NameValue(env, symtab, ctx, sym)
    case Element(sym, index) =>
      match SymbolAt(symtab, sym)
      case None => Bad(Error)
      case Some(name) =>
        match Lookup(env.fields, name)
        case None => Bad(Error)
        case Some((k, _)) =>
          LookupIsLookup(env.fields, name, 0);
          var ty := env.fields[k].ty;
          if ElementOf(ty, index).None? then Bad(Error)
          else ElementValue(ty, ElementOf(ty, index).value, index, env.slots[k])
  }

  /** A pattern matches a text; one that ends with two stars does as the loop has it. */
  ghost predicate PatternHolds(p: seq<byte>, s: seq<byte>) {
    if Glob.EndsWithTwoStars(p) then Glob.LoopMatches(p, s) else Glob.Matches(p, s)
  }

  function Truth(b: bool): Value { VInt(if b then 1 else 0) }

  /** Numbers compare as signed integers, texts as they are read, and a pattern is matched for
      equality with a text. */
  ghost function Compares(c: CmpOp, b: Value, a: Value): Res<Value> {
    if b.VInt? && a.VInt? then Ok(Truth(Related(c, Signed(b.v), Signed(a.v))))
    else if !b.VStr? || !a.VStr? then Bad(Error)
    else if (c == EQ || c == NE) && a.s.lit.GlobLiteral? then
      Ok(Truth(PatternHolds(Glob.Cut(a.s.data), Glob.Cut(b.s.data)) == (c == EQ)))
    else if (c == EQ || c == NE) && b.s.lit.GlobLiteral? then
      Ok(Truth(PatternHolds(Glob.Cut(b.s.data), Glob.Cut(a.s.data)) == (c == EQ)))
    else if StrCmp(b.s, a.s).None? then Bad(Wild)
    else Ok(Truth(TextRelated(c, ReadingOf(b.s, 0), ReadingOf(a.s, 0))))
  }

  /** The value of an expression on an event. AND and OR do not look at their second operand when
      the first decides, and have its value otherwise. */
  ghost function Eval(env: Env, symtab: seq<byte>, e: Expr): Res<Value>
    requires env.Valid()
  {
    match e
    case Atom(x) => LeafValue(env, symtab, x)
    case Compare(c, l, r) =>
      var b, a := Eval(env, symtab, l), Eval(env, symtab, r);
      if b.Bad? then b else if a.Bad? then a else Compares(c, b.value, a.value)
    case Combine(op, l, r) =>
      var b, a := Eval(env, symtab, l), Eval(env, symtab, r);
      if b.Bad? then b else if a.Bad? then a
      else if b.value.VInt? && a.value.VInt? then BitResult(op, b.value.v, a.value.v) else Bad(Error)
    case Apply(u, f) =>
      var a := Eval(env, symtab, f);
      if a.Bad? then a else if a.value.VInt? then Ok(UnaryResult(u, a.value.v)) else Bad(Error)
    case Invert(f) =>
      var a := Eval(env, symtab, f);
      if a.Bad? then a else if a.value.VInt? then Ok(VInt(MODULUS - 1 - a.value.v)) else Bad(Error)
    case Cast(f) => Eval(env, symtab, f)
    case Logic(isOr, l, r) =>
      var b := Eval(env, symtab, l);
      if b.Bad? then b
      else if !b.value.VInt? then Bad(Error)
      else if isOr && b.value.v != 0 then Ok(VInt(1))
      else if !isOr && b.value.v == 0 then Ok(VInt(0))
      else Eval(env, symtab, r)
  }

  // Sorts

  predicate IsText(t: RegType) { t == Str || t == StarGlob }

  /** Operands of one class at every comparator, as the specializer finds them, and numbers for all
      other operators. */
  predicate Sorted(src: Source, e: Expr) {
    match e
    case Atom(_) => true
    case Compare(_, l, r) =>
      && Sorted(src, l) && Sorted(src, r) && Below(src, l, r) == Top(src, l)
      && ((Top(src, l) == S64 && Top(src, r) == S64) || (IsText(Top(src, l)) && IsText(Top(src, r))))
    case Combine(_, l, r) => Sorted(src, l) && Sorted(src, r) && IsInt(Top(src, l)) && IsInt(Top(src, r))
    case Apply(_, e) => Sorted(src, e)
    case Invert(e) => Sorted(src, e) && IsInt(Top(src, e))
    case Cast(e) => Sorted(src, e)
    case Logic(_, l, r) => Sorted(src, l) && Sorted(src, r) && IsInt(Top(src, l)) && IsInt(Top(src, r))
  }

  predicate OfType(t: RegType, v: Value) {
    match t
    case S64 => v.VInt?
    case U64 => v.VInt?
    case Str => v.VStr? && !v.s.lit.GlobLiteral?
    case StarGlob => v.VStr? && v.s.lit.GlobLiteral?
    case _ => false
  }
}
