/** Relocation: the entries behind a program name fields and contexts for its load instructions, which
    are rewritten in place before validation. */
module Relocation {
  import opened Words
  import opened Opcodes
  import opened Fields
  import opened Specializer
  import opened StringCompare
  import opened Interpreter

  const LOAD_FIELD_REF: byte := 59
  const GET_CONTEXT_REF: byte := 70
  const GET_SYMBOL: byte := 82
  const GET_SYMBOL_FIELD: byte := 83

  /** Programs and offsets are of at most sixteen bits. */
  const MAX_LEN: nat := 65536

  /** What becomes of the code: rewritten, refused, or accessed beyond its end. */
  datatype Reloc = Applied(code: seq<byte>) | Refused | Outside

  // What an entry resolves to: the opcode to write and its operand

  /** apply_field_reloc's search as a function: the lookup, when all earlier fields can be skipped. */
  function RelocLookup(fields: seq<Field>, name: seq<byte>): Option<(nat, nat)> {
    match Lookup(fields, name)
    case None => None
    case Some((k, off)) =>
      LookupIsLookup(fields, name, 0);
      if forall j :: 0 <= j < k ==> Relocatable(fields[j]) then Some((k, off)) else None
  }

  function FieldOp(ty: FieldType): Option<RefOp> {
    match ty
    case Integer(_) => Some(FieldS64)
    case Enum(_) => Some(FieldS64)
    case Array(e, _, text) => if Bytewise(e) && text then Some(FieldSequence) else None
    case Sequence(e, text) => if Bytewise(e) && text then Some(FieldSequence) else None
    case StringT => Some(FieldString)
    case _ => None
  }

  function ContextOp(ty: FieldType): Option<RefOp> {
    match ty
    case Integer(_) => Some(ContextS64)
    case Enum(_) => Some(ContextS64)
    case Array(e, _, text) => if Bytewise(e) && text then Some(ContextString) else None
    case Sequence(e, text) => if Bytewise(e) && text then Some(ContextString) else None
    case StringT => Some(ContextString)
    case _ => None
  }

  function FieldRef(fields: seq<Field>, name: seq<byte>): Option<(RefOp, nat)> {
    match RelocLookup(fields, name)
    case None => None
    case Some((k, off)) =>
      LookupIsLookup(fields, name, 0);
      if off > MAX_LEN - 1 || FieldOp(fields[k].ty).None? then None else Some((FieldOp(fields[k].ty).value, off))
  }

  function ContextRef(ctx: seq<CtxField>, name: seq<byte>): Option<(RefOp, nat)> {
    match ContextIndexFrom(ctx, name, 0)
    case None => None
    case Some(idx) =>
      if idx > MAX_LEN - 1 || ContextOp(ctx[idx].ty).None? then None else Some((ContextOp(ctx[idx].ty).value, idx))
  }

  /** What the entry asks to be written over the opcode. */
  function Wanted(op: byte, fields: seq<Field>, ctx: seq<CtxField>, name: seq<byte>): Option<(RefOp, nat)> {
    if op == LOAD_FIELD_REF then FieldRef(fields, name)
    else if op == GET_CONTEXT_REF then ContextRef(ctx, name)
    else None
  }

  function RefByte(r: RefOp): (b: byte)
    ensures OpOf(b) == LoadRef(r)
  {
    match r
    case FieldString => 60 case FieldSequence => 61 case FieldS64 => 62
    case ContextString => 71 case ContextS64 => 72 case UserString => 74 case UserSequence => 75
  }

  function Written(code: seq<byte>, off: nat, r: RefOp, v: nat): (s: seq<byte>)
    requires off + 3 <= |code|
    ensures |s| == |code|
  {
    code[..off] + [RefByte(r)] + Bytes(v, 2) + code[off + 3..]
  }

  /** apply_reloc. The distance to the end of the code is computed in 32 bits without sign. */
  function Relocate(code: seq<byte>, fields: seq<Field>, ctx: seq<CtxField>, off: nat, name: seq<byte>): Reloc {
    if (|code| - off) % 0x1_0000_0000 < 2 then Refused
    else if off >= |code| then Outside
    else if code[off] == GET_SYMBOL || code[off] == GET_SYMBOL_FIELD then Applied(code)
    else
      match Wanted(code[off], fields, ctx, name)
      case None => Refused
      case Some((r, v)) => if off + 3 > |code| then Outside else Applied(Written(code, off, r, v))
  }

  /** A relocation leaves the code exactly when its offset lies behind the end, or two bytes before
      the end at a reference that can be resolved: the check lets both through. */
  lemma ConfinedExactly(code: seq<byte>, fields: seq<Field>, ctx: seq<CtxField>, off: nat, name: seq<byte>)
    requires |code| < MAX_LEN && off < MAX_LEN
    ensures Relocate(code, fields, ctx, off, name) == Outside <==>
              || off > |code|
              || (off + 2 == |code| && Wanted(code[off], fields, ctx, name).Some?)
  {
    assert off <= |code| ==> (|code| - off) % 0x1_0000_0000 == |code| - off;
    assert off > |code| ==> (|code| - off) % 0x1_0000_0000 == 0x1_0000_0000 + |code| - off;
  }

  /** Inside, it changes the instruction at its offset and no other byte: a reference becomes the load
      of the field or context that its name resolves to. */
  lemma RelocatedDecodes(code: seq<byte>, fields: seq<Field>, ctx: seq<CtxField>, off: nat, name: seq<byte>)
    requires |code| < MAX_LEN && off < MAX_LEN && Relocate(code, fields, ctx, off, name).Applied?
    ensures var c := Relocate(code, fields, ctx, off, name).code;
            && off + 2 <= |code| == |c| && (forall k :: 0 <= k < |c| && !(off <= k < off + 3) ==> c[k] == code[k])
            && if code[off] == GET_SYMBOL || code[off] == GET_SYMBOL_FIELD then c == code
               else
                 var w := Wanted(code[off], fields, ctx, name);
                 w.Some? && Decode(c, off) == Some(Insn(LoadRef(w.value.0), w.value.1, []))
  {
    ConfinedExactly(code, fields, ctx, off, name);
    var w := Wanted(code[off], fields, ctx, name);
    if w.Some? {
      var c := Written(code, off, w.value.0, w.value.1);
      assert c[off + 1..off + 3] == Bytes(w.value.1, 2);
      assert Pow256(2) == MAX_LEN;
      BytesRoundTrip(w.value.1, 2);
    }
  }

  /** A field reference resolves to the first filterable field of its name, and the load that it
      becomes reads that field's own value. */
  lemma FieldRefMeaning(env: Env, name: seq<byte>) returns (k: nat)
    requires env.Valid() && FieldRef(env.fields, name).Some?
    ensures IsLookup(env.fields, name, k)
    ensures var (r, v) := FieldRef(env.fields, name).value;
            var x := LoadReference(env, r, v);
            match env.slots[k]
            case IntSlot(w) => env.fields[k].ty.Integer? || env.fields[k].ty.Enum? ==> x == Ok(VInt(w))
            case StrSlot(s) =>
              env.fields[k].ty.StringT? ==>
                x == if s.None? then Bad(Error) else Ok(VStr(StrReg(s.value, NotLiteral)))
            case SeqSlot(len, data) =>
              (env.fields[k].ty.Array? || env.fields[k].ty.Sequence?) && (data.Some? ==> len <= |data.value|) ==>
                x == if data.None? then Bad(Error) else Ok(VStr(StrReg(data.value[..len], NotLiteral)))
  {
    LookupIsLookup(env.fields, name, 0);
    k := RelocLookup(env.fields, name).value.0;
    SlotAtOffset(env.fields, env.slots, k);
  }

  /** A context reference resolves to the first context called as its name says without a leading
      "$ctx.", and the load that it becomes reads that context's integer or text. */
  lemma ContextRefMeaning(env: Env, name: seq<byte>, sub: seq<byte>) returns (k: nat)
    requires env.Valid() && ContextRef(env.ctx, name).Some? && Strips(name, sub)
    ensures IsContext(env.ctx, sub, k)
    ensures var (r, v) := ContextRef(env.ctx, name).value;
            LoadReference(env, r, v) ==
            if env.ctx[k].ty.Integer? || env.ctx[k].ty.Enum? then Ok(VInt(env.ctxVals[k].i))
            else if env.ctxVals[k].s.None? then Bad(Error)
            else Ok(VStr(StrReg(env.ctxVals[k].s.value, NotLiteral)))
  {
    ContextUnique(env.ctx, name, sub);
    k := ContextIndexFrom(env.ctx, name, 0).value;
  }

  /** The search loop computes the lookup. */
  lemma SearchIsLookup(fields: seq<Field>, name: seq<byte>, r: Option<(nat, nat)>)
    requires r.Some? ==> r == Lookup(fields, name)
    requires r.Some? && r.value.0 < |fields| ==> forall k :: 0 <= k < r.value.0 ==> Relocatable(fields[k])
    requires r.None? ==> forall i :: 0 <= i < |fields| && IsLookup(fields, name, i) ==>
                           exists k :: 0 <= k < i && !Relocatable(fields[k])
    ensures r == RelocLookup(fields, name)
  {
    LookupIsLookup(fields, name, 0);
    if RelocLookup(fields, name).Some? {
      assert IsLookup(fields, name, RelocLookup(fields, name).value.0);
    }
  }

  datatype Status = Done | Invalid | Beyond

  /** apply_reloc on the code buffer. */
  method ApplyReloc(code: array<byte>, fields: seq<Field>, ctx: seq<CtxField>, off: nat, name: seq<byte>)
      returns (r: Status)
    modifies code
    ensures match Relocate(old(code[..]), fields, ctx, off, name)
            case Applied(c) => r == Done && code[..] == c
            case Refused => r == Invalid && code[..] == old(code[..])
            case Outside => r == Beyond && code[..] == old(code[..])
  {
    if (code.Length - off) % 0x1_0000_0000 < 2 {
      return Invalid;
    }
    if off >= code.Length {
      return Beyond;
    }
    if code[off] == GET_SYMBOL || code[off] == GET_SYMBOL_FIELD {
      return Done;
    }
    var wanted := None;
    if code[off] == LOAD_FIELD_REF {
      var found := RelocField(fields, name);
      LookupIsLookup(fields, name, 0);
      SearchIsLookup(fields, name, found);
      if found.Some? && found.value.1 <= MAX_LEN - 1 {
        var op := FieldOp(fields[found.value.0].ty);
        wanted := if op.Some? then Some((op.value, found.value.1)) else None;
      }
    } else if code[off] == GET_CONTEXT_REF {
      wanted := ContextRef(ctx, name);
    }
    if wanted.None? {
      return Invalid;
    }
    if off + 3 > code.Length {
      return Beyond;
    }
    code[off] := RefByte(wanted.value.0);
    code[off + 1] := wanted.value.1 % 256;
    code[off + 2] := wanted.value.1 / 256 % 256;
    assert Bytes(wanted.value.1, 2) == [wanted.value.1 % 256, wanted.value.1 / 256 % 256];
    assert code[..] == Written(old(code[..]), off, wanted.value.0, wanted.value.1);
    return Done;
  }

  // The table

  datatype Item = Item(off: nat, name: seq<byte>, next: nat)

  /** An entry: sixteen bits of offset, and a name with its terminator. */
  function ItemAt(table: seq<byte>, pos: nat): (r: Option<Item>)
    ensures r.Some? ==> pos < r.value.next <= |table|
  {
    if pos + 2 > |table| then None
    else
      var rest := table[pos + 2..];
      if StrLen(rest) == |rest| then None
      else Some(Item(LittleEndian(table[pos..pos + 2]), rest[..StrLen(rest)], pos + 2 + StrLen(rest) + 1))
  }

  /** The loop of link_bytecode over the table; a table that ends within an entry is read beyond. */
  function RelocateAll(code: seq<byte>, fields: seq<Field>, ctx: seq<CtxField>, table: seq<byte>, pos: nat): Reloc
    decreases |table| - pos
  {
    if pos >= |table| then Applied(code)
    else
      match ItemAt(table, pos)
      case None => Outside
      case Some(i) =>
        match Relocate(code, fields, ctx, i.off, i.name)
        case Applied(c) => RelocateAll(c, fields, ctx, table, i.next)
        case Refused => Refused
        case Outside => Outside
  }

  /** Every entry stands at a GET_SYMBOL, which is resolved later. */
  predicate NamesSymbols(code: seq<byte>, table: seq<byte>, pos: nat)
    decreases |table| - pos
  {
    pos >= |table| ||
    match ItemAt(table, pos)
    case None => false
    case Some(i) => i.off + 2 <= |code| && code[i.off] == GET_SYMBOL && NamesSymbols(code, table, i.next)
  }

  /** Such a table leaves the code as it is. */
  lemma {:induction false} SymbolsStay(code: seq<byte>, fields: seq<Field>, ctx: seq<CtxField>, table: seq<byte>,
                                       pos: nat)
    requires |code| < MAX_LEN && NamesSymbols(code, table, pos)
    ensures RelocateAll(code, fields, ctx, table, pos) == Applied(code)
    decreases |table| - pos
  {
    if pos < |table| {
      SymbolsStay(code, fields, ctx, table, ItemAt(table, pos).value.next);
    }
  }

  /** Every entry stands three bytes or more before the end. */
  predicate Confined(n: nat, table: seq<byte>, pos: nat)
    decreases |table| - pos
  {
    pos >= |table| ||
    match ItemAt(table, pos) case None => false case Some(i) => i.off + 3 <= n && Confined(n, table, i.next)
  }

  /** Then no relocation leaves the code, whatever it names, and the length stays. */
  lemma {:induction false} ConfinedStays(code: seq<byte>, fields: seq<Field>, ctx: seq<CtxField>, table: seq<byte>,
                                         pos: nat)
    requires |code| < MAX_LEN && Confined(|code|, table, pos)
    ensures var r := RelocateAll(code, fields, ctx, table, pos); r != Outside && (r.Applied? ==> |r.code| == |code|)
    decreases |table| - pos
  {
    if pos < |table| {
      var i := ItemAt(table, pos).value;
      ConfinedExactly(code, fields, ctx, i.off, i.name);
      var r := Relocate(code, fields, ctx, i.off, i.name);
      if r.Applied? {
        ConfinedStays(r.code, fields, ctx, table, i.next);
      }
    }
  }

  /** The loop on the code buffer. */
  method ApplyRelocs(code: array<byte>, fields: seq<Field>, ctx: seq<CtxField>, table: seq<byte>) returns (r: Status)
    modifies code
    ensures match RelocateAll(old(code[..]), fields, ctx, table, 0)
            case Applied(c) => r == Done && code[..] == c
            case Refused => r == Invalid
            case Outside => r == Beyond
  {
    var pos := 0;
    while pos < |table|
      invariant RelocateAll(code[..], fields, ctx, table, pos) == RelocateAll(old(code[..]), fields, ctx, table, 0)
      decreases |table| - pos
    {
      var i := ItemAt(table, pos);
      if i.None? {
        return Beyond;
      }
      r := ApplyReloc(code, fields, ctx, i.value.off, i.value.name);
      if r != Done {
        return;
      }
      pos := i.value.next;
    }
    r := Done;
  }
}
