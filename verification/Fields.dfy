/** Event field descriptions, the layout of the field values on the interpreter's
    payload, and the two loops that turn a field name into a payload offset. */
module Fields {
  import opened Words
  import opened Opcodes

  /** Element type of an array or sequence: an integer of some size in bits, or anything else. */
  datatype Elem = IntElem(size: nat, signed: bool) | OtherElem

  predicate Bytewise(e: Elem) {
    e.IntElem? && (e.size == 8 || e.size == 16 || e.size == 32 || e.size == 64)
  }

  type uint32 = n: nat | n < 0x1_0000_0000

  /** The number of elements of a sequence, whose length in bits fits 64 bits because its data lies
      in memory. */
  type count = n: nat | n <= MAX_COUNT

  const MAX_COUNT: nat := 0x3ff_ffff_ffff_ffff

  /** text: the array or sequence has a string encoding. */
  datatype FieldType =
    | Integer(signed: bool) | Enum(signed: bool)
    | Array(elem: Elem, length: uint32, text: bool) | Sequence(elem: Elem, text: bool)
    | StringT | Struct | Variant

  datatype Field = Field(name: seq<byte>, nofilter: bool, ty: FieldType)

  /** One value on the payload: an integer word, a string pointer, or a length word and a pointer. */
  datatype Slot = IntSlot(v: word) | StrSlot(s: Option<seq<byte>>) | SeqSlot(len: count, data: Option<seq<byte>>)

  /** Bytes a field takes on the payload: sizeof(int64_t), or sizeof(unsigned long) plus a pointer, or a pointer. */
  function SlotSize(ty: FieldType): Option<nat> {
    match ty
    case Integer(_) => Some(8)
    case Enum(_) => Some(8)
    case Array(_, _, _) => Some(8 + 8)
    case Sequence(_, _) => Some(8 + 8)
    case StringT => Some(8)
    case Struct => None
    case Variant => None
  }

  predicate Sized(f: Field) { f.nofilter || SlotSize(f.ty).Some? }

  function FieldSize(f: Field): nat
    requires Sized(f)
  {
    if f.nofilter then 0 else SlotSize(f.ty).value
  }

  /** Total slot size of the filterable fields among the first n. */
  function SlotSum(fields: seq<Field>, n: nat): nat
    requires n <= |fields| && forall k :: 0 <= k < n ==> Sized(fields[k])
  {
    if n == 0 then 0 else SlotSum(fields, n - 1) + FieldSize(fields[n - 1])
  }

  /** i is the first filterable field called name, and every field before it can be skipped. */
  ghost predicate IsLookup(fields: seq<Field>, name: seq<byte>, i: nat) {
    && i < |fields| && !fields[i].nofilter && fields[i].name == name
    && (forall k :: 0 <= k < i ==> Sized(fields[k]))
    && (forall k :: 0 <= k < i ==> fields[k].nofilter || fields[k].name != name)
  }

  /** Arrays and sequences before the field must also hold plain integers for a relocation. */
  predicate Relocatable(f: Field) {
    f.nofilter || match f.ty
                  case Array(e, _, _) => Bytewise(e)
                  case Sequence(e, _) => Bytewise(e)
                  case _ => true
  }

  /** specialize_payload_lookup's search: index and payload offset of the named field. */
  method LookupPayload(fields: seq<Field>, name: seq<byte>) returns (r: Option<(nat, nat)>)
    ensures r.Some? ==> IsLookup(fields, name, r.value.0) && r.value.1 == SlotSum(fields, r.value.0)
    ensures r.None? ==> forall i :: 0 <= i < |fields| ==> !IsLookup(fields, name, i)
    ensures r == Lookup(fields, name)
  {
    var i, offset := 0, 0;
    while i < |fields|
      invariant 0 <= i <= |fields|
      invariant forall k :: 0 <= k < i ==> Sized(fields[k]) && (fields[k].nofilter || fields[k].name != name)
      invariant offset == SlotSum(fields, i)
    {
      var f := fields[i];
      if !f.nofilter {
        if f.name == name {
          LookupUnique(fields, name, i);
          return Some((i, offset));
        }
        var size := SlotSize(f.ty);
        if size.None? {
          NoLookup(fields, name, i + 1);
          return None;
        }
        offset := offset + size.value;
      }
      i := i + 1;
    }
    NoLookup(fields, name, i);
    return None;
  }

  /** apply_field_reloc's search, with its extra demand on skipped arrays and sequences. */
  method RelocField(fields: seq<Field>, name: seq<byte>) returns (r: Option<(nat, nat)>)
    ensures r.Some? ==> r == Lookup(fields, name)
    ensures r.Some? ==> forall k :: 0 <= k < r.value.0 ==> k < |fields| && Relocatable(fields[k])
    ensures r.None? ==> forall i :: 0 <= i < |fields| && IsLookup(fields, name, i) ==>
                          exists k :: 0 <= k < i && !Relocatable(fields[k])
  {
    var i, offset := 0, 0;
    while i < |fields|
      invariant 0 <= i <= |fields|
      invariant forall k :: 0 <= k < i ==> Sized(fields[k]) && (fields[k].nofilter || fields[k].name != name)
      invariant forall k :: 0 <= k < i ==> Relocatable(fields[k])
      invariant offset == SlotSum(fields, i)
    {
      var f := fields[i];
      if !f.nofilter {
        if f.name == name {
          LookupUnique(fields, name, i);
          return Some((i, offset));
        }
        match f.ty {
          case Integer(_) => offset := offset + 8;
          case Enum(_) => offset := offset + 8;
          case Array(e, _, _) =>
            if !Bytewise(e) {
              return None;
            }
            offset := offset + 8 + 8;
          case Sequence(e, _) =>
            if !Bytewise(e) {
              return None;
            }
            offset := offset + 8 + 8;
          case StringT => offset := offset + 8;
          case _ =>
            NoLookup(fields, name, i + 1);
            return None;
        }
      }
      i := i + 1;
    }
    NoLookup(fields, name, i);
    return None;
  }

  /** The field a name stands for: its index and its payload offset. */
  function Lookup(fields: seq<Field>, name: seq<byte>): Option<(nat, nat)> {
    LookupFrom(fields, name, 0)
  }

  function LookupFrom(fields: seq<Field>, name: seq<byte>, i: nat): Option<(nat, nat)>
    requires i <= |fields| && forall k :: 0 <= k < i ==> Sized(fields[k])
    decreases |fields| - i
  {
    if i == |fields| then None
    else if !fields[i].nofilter && fields[i].name == name then Some((i, SlotSum(fields, i)))
    else if !Sized(fields[i]) then None
    else LookupFrom(fields, name, i + 1)
  }

  lemma {:induction false} LookupUnique(fields: seq<Field>, name: seq<byte>, i: nat)
    requires IsLookup(fields, name, i)
    ensures Lookup(fields, name) == Some((i, SlotSum(fields, i)))
    ensures forall j :: 0 <= j < |fields| && IsLookup(fields, name, j) ==> j == i
  {
    LookupSkips(fields, name, i);
  }

  lemma {:induction false} LookupSkips(fields: seq<Field>, name: seq<byte>, i: nat)
    requires i <= |fields|
    requires forall k :: 0 <= k < i ==> Sized(fields[k]) && (fields[k].nofilter || fields[k].name != name)
    ensures Lookup(fields, name) == LookupFrom(fields, name, i)
  {
    if i > 0 {
      LookupSkips(fields, name, i - 1);
    }
  }

  /** No field answers when the search stops after i fields. */
  lemma NoLookup(fields: seq<Field>, name: seq<byte>, i: nat)
    requires i <= |fields|
    requires forall k :: 0 <= k < i ==> fields[k].nofilter || fields[k].name != name
    requires i == |fields| || (i > 0 && !Sized(fields[i - 1]))
    ensures Lookup(fields, name).None?
    ensures forall j :: 0 <= j < |fields| ==> !IsLookup(fields, name, j)
  {
    LookupIsLookup(fields, name, 0);
  }

  lemma {:induction false} LookupIsLookup(fields: seq<Field>, name: seq<byte>, i: nat)
    requires i <= |fields|
    requires forall k :: 0 <= k < i ==> Sized(fields[k]) && (fields[k].nofilter || fields[k].name != name)
    ensures var r := LookupFrom(fields, name, i);
            r.Some? ==> IsLookup(fields, name, r.value.0) && r.value.1 == SlotSum(fields, r.value.0)
    decreases |fields| - i
  {
    if i < |fields| && !(!fields[i].nofilter && fields[i].name == name) && Sized(fields[i]) {
      LookupIsLookup(fields, name, i + 1);
    }
  }

  /** Slots of different filterable fields never overlap. */
  lemma {:induction false} SlotsDisjoint(fields: seq<Field>, i: nat, j: nat)
    requires i < j < |fields| && forall k :: 0 <= k <= j ==> Sized(fields[k])
    ensures SlotSum(fields, i) + FieldSize(fields[i]) <= SlotSum(fields, j)
  {
    if i + 1 < j {
      SlotsDisjoint(fields, i, j - 1);
    }
  }

  /** The value stored at a byte offset of the payload, if a slot starts there. */
  function SlotAt(fields: seq<Field>, slots: seq<Slot>, off: nat): Option<Slot>
    requires |slots| == |fields|
  {
    if fields == [] then None
    else if fields[0].nofilter then SlotAt(fields[1..], slots[1..], off)
    else if off == 0 then Some(slots[0])
    else if SlotSize(fields[0].ty).None? || off < SlotSize(fields[0].ty).value then None
    else SlotAt(fields[1..], slots[1..], off - SlotSize(fields[0].ty).value)
  }

  lemma {:induction false} SlotSumTail(fields: seq<Field>, n: nat)
    requires 0 < n <= |fields| && forall k :: 0 <= k < n ==> Sized(fields[k])
    ensures forall k :: 0 <= k < n - 1 ==> Sized(fields[1..][k])
    ensures SlotSum(fields, n) == FieldSize(fields[0]) + SlotSum(fields[1..], n - 1)
  {
    if n > 1 {
      SlotSumTail(fields, n - 1);
    }
  }

  /** Reading at the offset of a filterable field yields that field's own value. */
  lemma {:induction false} SlotAtOffset(fields: seq<Field>, slots: seq<Slot>, i: nat)
    requires |slots| == |fields| && i < |fields| && !fields[i].nofilter
    requires forall k :: 0 <= k < i ==> Sized(fields[k])
    ensures SlotAt(fields, slots, SlotSum(fields, i)) == Some(slots[i])
  {
    if i > 0 {
      SlotSumTail(fields, i);
      SlotAtOffset(fields[1..], slots[1..], i - 1);
    }
  }
}
