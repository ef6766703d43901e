/** Layout of a trace record: the space reserved for the event header and the contexts against
    the bytes written there, and the header read back by its declared layout. */
module RecordLayout {
  import opened Words
  import opened Alignment

  type pos = n: int | n > 0 witness 1

  /** An aligned write: padding up to align, then the bytes. */
  datatype Piece = Piece(align: pos, data: seq<byte>)

  /** lib_ring_buffer_align: a build without RING_BUFFER_ALIGN pads nothing. */
  function Pad(aligned: bool, off: nat, align: pos): nat {
    if aligned then Missing(off, align) else 0
  }

  function Zeros(n: nat): (s: seq<byte>)
    ensures |s| == n
  {
    if n == 0 then [] else [0] + Zeros(n - 1)
  }

  /** Offset after one write, and after a list of writes, from an absolute offset on. */
  function After(aligned: bool, off: nat, p: Piece): nat { off + Pad(aligned, off, p.align) + |p.data| }

  function End(aligned: bool, off: nat, ps: seq<Piece>): (e: nat)
    ensures e >= off
  {
    if ps == [] then off else After(aligned, End(aligned, off, ps[..|ps| - 1]), ps[|ps| - 1])
  }

  /** The bytes a list of writes puts in the buffer. */
  function Written(aligned: bool, off: nat, ps: seq<Piece>): (s: seq<byte>)
    ensures |s| == End(aligned, off, ps) - off
  {
    if ps == [] then []
    else
      var init, p := ps[..|ps| - 1], ps[|ps| - 1];
      Written(aligned, off, init) + (Zeros(Pad(aligned, End(aligned, off, init), p.align)) + p.data)
  }

  lemma {:induction false} WrittenAppend(aligned: bool, off: nat, a: seq<Piece>, b: seq<Piece>)
    ensures End(aligned, off, a + b) == End(aligned, End(aligned, off, a), b)
    ensures Written(aligned, off, a + b) == Written(aligned, off, a) + Written(aligned, End(aligned, off, a), b)
    decreases |b|
  {
    if b == [] {
      assert a + b == a;
    } else {
      var init, p := b[..|b| - 1], b[|b| - 1];
      WrittenAppend(aligned, off, a, init);
      assert (a + b)[..|a + b| - 1] == a + init;
      var at := End(aligned, off, a);
      Associative(Written(aligned, off, a), Written(aligned, at, init),
                  Zeros(Pad(aligned, End(aligned, at, init), p.align)) + p.data);
    }
  }

  lemma WrittenOne(aligned: bool, off: nat, p: Piece)
    ensures End(aligned, off, [p]) == After(aligned, off, p)
    ensures Written(aligned, off, [p]) == Zeros(Pad(aligned, off, p.align)) + p.data
  {
    assert [p][..0] == [];
  }

  /** The alignment and the length of a write. */
  datatype Extent = Extent(align: pos, size: nat)

  function Extents(ps: seq<Piece>): seq<Extent> {
    if ps == [] then [] else [Extent(ps[0].align, |ps[0].data|)] + Extents(ps[1..])
  }

  function Contents(ps: seq<Piece>): seq<seq<byte>> { if ps == [] then [] else [ps[0].data] + Contents(ps[1..]) }

  /** Reading a stretch of bytes by alignments and lengths, and what is left behind. */
  function Scan(aligned: bool, off: nat, xs: seq<Extent>, out: seq<byte>): Option<(seq<seq<byte>>, seq<byte>)>
    decreases |xs|
  {
    if xs == [] then Some(([], out))
    else
      var at := Pad(aligned, off, xs[0].align);
      var end := at + xs[0].size;
      if end > |out| then None
      else match Scan(aligned, off + end, xs[1..], out[end..])
           case None => None
           case Some((datas, rest)) => Some(([out[at..end]] + datas, rest))
  }

  lemma ScanFirst(aligned: bool, off: nat, xs: seq<Extent>, z: seq<byte>, d: seq<byte>, tail: seq<byte>, out: seq<byte>,
                  datas: seq<seq<byte>>, rest: seq<byte>)
    requires xs != [] && |z| == Pad(aligned, off, xs[0].align) && |d| == xs[0].size && out == (z + d) + tail
    requires Scan(aligned, off + |z| + |d|, xs[1..], tail) == Some((datas, rest))
    ensures Scan(aligned, off, xs, out) == Some(([d] + datas, rest))
  {
    assert out[|z|..|z| + |d|] == d && out[|z| + |d|..] == tail;
  }

  lemma WrittenFirst(aligned: bool, off: nat, p: Piece, more: seq<Piece>, rest: seq<byte>, z: seq<byte>, next: nat)
    requires z == Zeros(Pad(aligned, off, p.align)) && next == After(aligned, off, p)
    ensures Written(aligned, off, [p] + more) + rest == (z + p.data) + (Written(aligned, next, more) + rest)
  {
    WrittenAppend(aligned, off, [p], more);
    WrittenOne(aligned, off, p);
    Associative(z + p.data, Written(aligned, next, more), rest);
  }

  /** Read by their alignments and lengths, the bytes of a list of writes give back every write in its
      place, and leave what follows. */
  lemma {:induction false} WrittenScans(aligned: bool, off: nat, ps: seq<Piece>, rest: seq<byte>)
    ensures Scan(aligned, off, Extents(ps), Written(aligned, off, ps) + rest) == Some((Contents(ps), rest))
    decreases |ps|
  {
    if ps == [] {
      assert Written(aligned, off, ps) + rest == rest;
    } else {
      var p, more, xs := ps[0], ps[1..], Extents(ps);
      var z, next := Zeros(Pad(aligned, off, p.align)), After(aligned, off, p);
      assert ps == [p] + more && xs[0] == Extent(p.align, |p.data|) && xs[1..] == Extents(more);
      WrittenFirst(aligned, off, p, more, rest, z, next);
      WrittenScans(aligned, next, more, rest);
      ScanFirst(aligned, off, xs, z, p.data, Written(aligned, next, more) + rest, Written(aligned, off, ps) + rest,
                Contents(more), rest);
    }
  }

  /** Padding depends only on the offset modulo any common multiple of the alignments. */
  lemma {:induction false} EndShift(aligned: bool, base: nat, ps: seq<Piece>, largest: pos)
    requires forall k :: 0 <= k < |ps| ==> Divides(ps[k].align, largest)
    requires aligned ==> Divides(largest, base)
    ensures End(aligned, base, ps) == base + End(aligned, 0, ps)
    decreases |ps|
  {
    if ps != [] {
      var init, p := ps[..|ps| - 1], ps[|ps| - 1];
      EndShift(aligned, base, init, largest);
      if aligned {
        DividesThrough(p.align, largest, base);
        MissingShift(base, End(aligned, 0, init), p.align);
      }
    }
  }

  // ---- contexts ----

  datatype Type =
    | Integer(align: nat) | Text | Enum(container: Type)
    | Array(elem: Type, align: nat) | Sequence(elem: Type, align: nat)
    | Struct(members: seq<Type>) | Variant

  function Max(a: nat, b: nat): nat { if a >= b then a else b }

  /** get_type_max_align, in bits. */
  function TypeMaxAlign(t: Type): nat
    decreases t, 0
  {
    match t
    case Integer(a) => a
    case Text => 8
    case Enum(c) => TypeMaxAlign(c)
    case Array(e, a) => Max(TypeMaxAlign(e), a)
    case Sequence(e, a) => Max(TypeMaxAlign(e), a)
    case Struct(ms) => MembersMaxAlign(ms)
    case Variant => 0
  }

  function MembersMaxAlign(ms: seq<Type>): nat
    decreases ms, 1
  {
    if ms == [] then 0 else Max(TypeMaxAlign(ms[0]), MembersMaxAlign(ms[1..]))
  }

  /** An alignment is declared somewhere in the type; that of a text is one byte. */
  ghost predicate Declares(t: Type, a: nat)
    decreases t, 0
  {
    match t
    case Integer(b) => a == b
    case Text => a == 8
    case Enum(c) => Declares(c, a)
    case Array(e, b) => a == b || Declares(e, a)
    case Sequence(e, b) => a == b || Declares(e, a)
    case Struct(ms) => exists k :: 0 <= k < |ms| && Declares(ms[k], a)
    case Variant => false
  }

  /** The largest of the alignments that a type declares, or 0. */
  lemma {:induction false} TypeMaxAlignIsMax(t: Type, a: nat)
    ensures Declares(t, a) ==> a <= TypeMaxAlign(t)
    ensures TypeMaxAlign(t) == 0 || Declares(t, TypeMaxAlign(t))
    decreases t, 0
  {
    match t
    case Enum(c) => TypeMaxAlignIsMax(c, a);
    case Array(e, _) => TypeMaxAlignIsMax(e, a);
    case Sequence(e, _) => TypeMaxAlignIsMax(e, a);
    case Struct(ms) => MembersMaxAlignIsMax(ms, a);
    case _ =>
  }

  lemma {:induction false} MembersMaxAlignIsMax(ms: seq<Type>, a: nat)
    ensures (exists k :: 0 <= k < |ms| && Declares(ms[k], a)) ==> a <= MembersMaxAlign(ms)
    ensures MembersMaxAlign(ms) == 0 || exists k :: 0 <= k < |ms| && Declares(ms[k], MembersMaxAlign(ms))
    decreases ms, 1
  {
    if ms != [] {
      var rest, m := ms[1..], MembersMaxAlign(ms);
      TypeMaxAlignIsMax(ms[0], a);
      MembersMaxAlignIsMax(rest, a);
      if k :| 0 < k < |ms| && Declares(ms[k], a) {
        assert Declares(rest[k - 1], a);
      }
      if m > TypeMaxAlign(ms[0]) {
        var k :| 0 <= k < |rest| && Declares(rest[k], m);
        assert Declares(ms[k + 1], m);
      }
    }
  }

  /** Declared alignments are powers of two, or absent. */
  predicate TypeOk(t: Type)
    decreases t, 0
  {
    match t
    case Integer(a) => IsPow2(a)
    case Enum(c) => TypeOk(c)
    case Array(e, a) => TypeOk(e) && (a == 0 || IsPow2(a))
    case Sequence(e, a) => TypeOk(e) && (a == 0 || IsPow2(a))
    case Struct(ms) => forall k :: 0 <= k < |ms| ==> TypeOk(ms[k])
    case _ => true
  }

  lemma {:induction false} TypeAlignIsPow2(t: Type)
    requires TypeOk(t)
    ensures TypeMaxAlign(t) == 0 || IsPow2(TypeMaxAlign(t))
    decreases t, 0
  {
    match t
    case Text => assert IsPow2(8) by { assert IsPow2(4); }
    case Enum(c) => TypeAlignIsPow2(c);
    case Array(e, _) => TypeAlignIsPow2(e);
    case Sequence(e, _) => TypeAlignIsPow2(e);
    case Struct(ms) => MembersAlignIsPow2(ms);
    case _ =>
  }

  lemma {:induction false} MembersAlignIsPow2(ms: seq<Type>)
    requires forall k :: 0 <= k < |ms| ==> TypeOk(ms[k])
    ensures MembersMaxAlign(ms) == 0 || IsPow2(MembersMaxAlign(ms))
    decreases ms, 1
  {
    if ms != [] {
      TypeAlignIsPow2(ms[0]);
      MembersAlignIsPow2(ms[1..]);
    }
  }

  /** A context field: its declared type, and the writes its record callback makes, which its
      size callback measures. */
  datatype CtxField = CtxField(ty: Type, pieces: seq<Piece>)

  /** The callbacks use no alignment beyond the declared one. */
  predicate FieldOk(f: CtxField) {
    TypeOk(f.ty) &&
    forall k :: 0 <= k < |f.pieces| ==>
      IsPow2(f.pieces[k].align) && 8 * f.pieces[k].align <= Max(8, TypeMaxAlign(f.ty))
  }

  /** Largest alignment of the fields, in bits and at least one byte. */
  function LargestBits(fields: seq<CtxField>): (r: nat)
    ensures r >= 8
  {
    if fields == [] then 8
    else Max(LargestBits(fields[..|fields| - 1]), TypeMaxAlign(fields[|fields| - 1].ty))
  }

  /** The largest of one byte and the alignments of the fields. */
  lemma {:induction false} LargestIsMax(fields: seq<CtxField>)
    ensures forall k :: 0 <= k < |fields| ==> TypeMaxAlign(fields[k].ty) <= LargestBits(fields)
    ensures LargestBits(fields) == 8 ||
            exists k :: 0 <= k < |fields| && TypeMaxAlign(fields[k].ty) == LargestBits(fields)
  {
    if fields != [] {
      var init := fields[..|fields| - 1];
      LargestIsMax(init);
      forall k | 0 <= k < |fields| ensures TypeMaxAlign(fields[k].ty) <= LargestBits(fields) {
        if k < |init| {
          assert init[k] == fields[k];
        }
      }
      if LargestBits(fields) != 8 && LargestBits(fields) == LargestBits(init) {
        var k :| 0 <= k < |init| && TypeMaxAlign(init[k].ty) == LargestBits(init);
        assert fields[k] == init[k];
      }
    }
  }

  /** The same in bytes. */
  function LargestAlign(fields: seq<CtxField>): pos { LargestBits(fields) / 8 }

  function Pieces(fields: seq<CtxField>): seq<Piece> {
    if fields == [] then [] else Pieces(fields[..|fields| - 1]) + fields[|fields| - 1].pieces
  }

  lemma PiecesStep(first: seq<Piece>, fields: seq<CtxField>, i: nat)
    requires i < |fields|
    ensures (first + Pieces(fields[..i])) + fields[i].pieces == first + Pieces(fields[..i + 1])
  {
    assert fields[..i + 1][..i] == fields[..i];
    Associative(first, Pieces(fields[..i]), fields[i].pieces);
  }

  lemma {:induction false} LargestCovers(fields: seq<CtxField>)
    requires forall k :: 0 <= k < |fields| ==> FieldOk(fields[k])
    ensures IsPow2(LargestBits(fields))
    ensures forall k :: 0 <= k < |Pieces(fields)| ==>
              IsPow2(Pieces(fields)[k].align) && 8 * Pieces(fields)[k].align <= LargestBits(fields)
  {
    assert IsPow2(8) by { assert IsPow2(4); }
    if fields != [] {
      var init, f := fields[..|fields| - 1], fields[|fields| - 1];
      LargestCovers(init);
      TypeAlignIsPow2(f.ty);
    }
  }

  lemma {:induction false} EighthIsPow2(n: nat)
    requires IsPow2(n) && n >= 8
    ensures IsPow2(n / 8) && n % 8 == 0
  {
    assert IsPow2(n / 2) && IsPow2(n / 2 / 2) && IsPow2(n / 2 / 2 / 2);
  }

  /** Every write of the contexts is aligned on a divisor of the context's largest alignment. */
  lemma LargestDivides(fields: seq<CtxField>)
    requires forall k :: 0 <= k < |fields| ==> FieldOk(fields[k])
    ensures forall k :: 0 <= k < |Pieces(fields)| ==> Divides(Pieces(fields)[k].align, LargestAlign(fields))
  {
    LargestCovers(fields);
    EighthIsPow2(LargestBits(fields));
    forall k | 0 <= k < |Pieces(fields)| ensures Divides(Pieces(fields)[k].align, LargestAlign(fields)) {
      Pow2Divides(Pieces(fields)[k].align, LargestAlign(fields));
    }
  }

  /** struct lttng_kernel_ctx with its append and remove operations. */
  class Context {
    var fields: seq<CtxField>
    var largestAlign: nat

    /** largest_align is in bytes and always that of the present fields. */
    ghost predicate Valid()
      reads this
    {
      largestAlign == LargestAlign(fields)
    }

    constructor ()
      ensures Valid() && fields == [] && largestAlign == 1
    {
      fields, largestAlign := [], 1;
    }

    /** lttng_context_update */
    method Update()
      modifies this`largestAlign
      ensures Valid()
    {
      var largest := 8;
      for i := 0 to |fields|
        invariant largest == LargestBits(fields[..i])
      {
        assert fields[..i + 1][..i] == fields[..i];
        largest := Max(largest, TypeMaxAlign(fields[i].ty));
      }
      assert fields[..|fields|] == fields;
      largestAlign := largest / 8;
    }

    /** lttng_kernel_context_append; ok tells whether the field array can grow. */
    method Append(f: CtxField, ok: bool) returns (done: bool)
      requires Valid()
      modifies this
      ensures Valid() && done == ok && fields == if ok then old(fields) + [f] else old(fields)
    {
      if !ok {
        return false;
      }
      fields := fields + [f];
      Update();
      return true;
    }

    method RemoveLast()
      requires Valid()
      modifies this
      ensures Valid()
      ensures fields == if old(fields) == [] then [] else old(fields)[..|old(fields)| - 1]
    {
      if fields == [] {
        return;
      }
      fields := fields[..|fields| - 1];
      Update();
    }
  }

  // ---- header ----

  datatype HeaderType = Compact | Large

  const TWO27: nat := 0x800_0000
  const TWO32: nat := 0x1_0000_0000

  /** The writes of the event header after its own alignment; extended carries the full event
      id and timestamp behind a reserved short id. */
  function HeaderPieces(h: HeaderType, extended: bool, id: nat, ts: word): seq<Piece> {
    match h
    case Compact =>
      if !extended then [Piece(1, Bytes(id % 32 + 32 * (ts % TWO27), 4))]
      else [Piece(1, Bytes(31, 1)), Piece(8, Bytes(id, 4)), Piece(8, Bytes(ts, 8))]
    case Large =>
      if !extended then [Piece(1, Bytes(id % 65536, 2)), Piece(4, Bytes(ts % TWO32, 4))]
      else [Piece(1, Bytes(65535, 2)), Piece(8, Bytes(id, 4)), Piece(8, Bytes(ts, 8))]
  }

  function HeaderAlign(h: HeaderType): pos { if h == Compact then 4 else 2 }

  /** The channel's contexts, if any: the alignment and then every field's writes. */
  function CtxPieces(ctx: Option<seq<CtxField>>): seq<Piece> {
    match ctx
    case None => []
    case Some(fields) => [Piece(LargestAlign(fields), [])] + Pieces(fields)
  }

  /** ctx_get_struct_size: sizes measured from relative offset 0. */
  method CtxGetStructSize(aligned: bool, ctx: Option<seq<CtxField>>) returns (len: nat)
    ensures len == CtxLength(aligned, ctx)
  {
    if ctx.None? {
      return 0;
    }
    var fields := ctx.value;
    len := 0;
    for i := 0 to |fields|
      invariant len == End(aligned, 0, Pieces(fields[..i]))
    {
      var size := FieldSize(aligned, fields[i], len);
      assert fields[..i + 1][..i] == fields[..i];
      WrittenAppend(aligned, 0, Pieces(fields[..i]), fields[i].pieces);
      len := len + size;
    }
    assert fields[..|fields|] == fields;
  }

  function CtxLength(aligned: bool, ctx: Option<seq<CtxField>>): nat {
    match ctx case None => 0 case Some(fields) => End(aligned, 0, Pieces(fields))
  }

  /** A field's size callback at an offset. */
  method FieldSize(aligned: bool, f: CtxField, offset: nat) returns (size: nat)
    ensures offset + size == End(aligned, offset, f.pieces)
  {
    size := 0;
    for i := 0 to |f.pieces|
      invariant offset + size == End(aligned, offset, f.pieces[..i])
    {
      assert f.pieces[..i + 1][..i] == f.pieces[..i];
      size := size + Pad(aligned, offset + size, f.pieces[i].align);
      size := size + |f.pieces[i].data|;
    }
    assert f.pieces[..|f.pieces|] == f.pieces;
  }

  /** record_header_size with ctx_get_aligned_size, as a running offset. */
  method RecordHeaderSize(aligned: bool, h: HeaderType, extended: bool, begin: nat,
                          ctx: Option<seq<CtxField>>, ctxLen: nat)
      returns (size: nat, padding: nat)
    ensures padding == Pad(aligned, begin, HeaderAlign(h))
    ensures size == SizeSpec(aligned, h, extended, begin, ctx, ctxLen)
  {
    var offset := begin;
    if h == Compact {
      padding := Pad(aligned, offset, 4);
      offset := offset + padding;
      if !extended {
        offset := offset + 4;
      } else {
        offset := offset + (5 + 8 - 1) / 8;
        offset := offset + Pad(aligned, offset, 8);
        offset := offset + 4;
        offset := offset + Pad(aligned, offset, 8);
        offset := offset + 8;
      }
    } else {
      padding := Pad(aligned, offset, 2);
      offset := offset + padding;
      offset := offset + 2;
      if !extended {
        offset := offset + Pad(aligned, offset, 4);
        offset := offset + 4;
      } else {
        offset := offset + Pad(aligned, offset, 8);
        offset := offset + 4;
        offset := offset + Pad(aligned, offset, 8);
        offset := offset + 8;
      }
    }
    if ctx.Some? {
      offset := offset + Pad(aligned, offset, LargestAlign(ctx.value));
      offset := offset + ctxLen;
    }
    size := offset - begin;
  }

  /** End of the header proper, from an offset aligned for it. */
  function HeaderEnd(aligned: bool, h: HeaderType, extended: bool, off: nat): nat {
    match h
    case Compact =>
      if !extended then off + 4
      else var a := off + 1 + Pad(aligned, off + 1, 8) + 4; a + Pad(aligned, a, 8) + 8
    case Large =>
      if !extended then off + 2 + Pad(aligned, off + 2, 4) + 4
      else var a := off + 2 + Pad(aligned, off + 2, 8) + 4; a + Pad(aligned, a, 8) + 8
  }

  function SizeSpec(aligned: bool, h: HeaderType, extended: bool, begin: nat, ctx: Option<seq<CtxField>>,
                    ctxLen: nat): int
  {
    var e := HeaderEnd(aligned, h, extended, begin + Pad(aligned, begin, HeaderAlign(h)));
    (if ctx.Some? then e + Pad(aligned, e, LargestAlign(ctx.value)) + ctxLen else e) - begin
  }

  lemma HeaderWritten(aligned: bool, h: HeaderType, extended: bool, id: nat, ts: word, off: nat)
    ensures End(aligned, off, HeaderPieces(h, extended, id, ts)) == HeaderEnd(aligned, h, extended, off)
  {
    var ps := HeaderPieces(h, extended, id, ts);
    assert Missing(off, 1) == 0;
    assert ps[..1] == [ps[0]] && ps[..|ps|] == ps;
    WrittenOne(aligned, off, ps[0]);
    if |ps| > 1 {
      assert ps[..2][..1] == ps[..1];
    }
    if |ps| > 2 {
      assert ps[..3][..2] == ps[..2];
    }
  }

  /** The context bytes written after the header are those measured from relative offset 0. */
  lemma CtxWritten(aligned: bool, off: nat, fields: seq<CtxField>)
    requires forall k :: 0 <= k < |fields| ==> FieldOk(fields[k])
    ensures End(aligned, off, CtxPieces(Some(fields)))
            == off + Pad(aligned, off, LargestAlign(fields)) + CtxLength(aligned, Some(fields))
  {
    LargestDivides(fields);
    var first := Piece(LargestAlign(fields), []);
    MissingAligns(off, first.align);
    WrittenOne(aligned, off, first);
    WrittenAppend(aligned, off, [first], Pieces(fields));
    EndShift(aligned, After(aligned, off, first), Pieces(fields), first.align);
  }

  /** Reserve equals write: whatever the header type, the flags, the contexts and the starting
      offset, the writes of the header and the contexts, begun after the pre-header padding,
      end exactly where the reserved size ends. */
  lemma ReserveEqualsWrite(aligned: bool, h: HeaderType, extended: bool, begin: nat, ctx: Option<seq<CtxField>>,
                           id: nat, ts: word)
    requires ctx.Some? ==> forall k :: 0 <= k < |ctx.value| ==> FieldOk(ctx.value[k])
    ensures begin + SizeSpec(aligned, h, extended, begin, ctx, CtxLength(aligned, ctx))
            == End(aligned, begin + Pad(aligned, begin, HeaderAlign(h)),
                   HeaderPieces(h, extended, id, ts) + CtxPieces(ctx))
  {
    var off := begin + Pad(aligned, begin, HeaderAlign(h));
    HeaderWritten(aligned, h, extended, id, ts, off);
    HeaderThenContext(aligned, off, HeaderPieces(h, extended, id, ts), ctx);
  }

  lemma HeaderThenContext(aligned: bool, off: nat, header: seq<Piece>, ctx: Option<seq<CtxField>>)
    requires ctx.Some? ==> forall k :: 0 <= k < |ctx.value| ==> FieldOk(ctx.value[k])
    ensures var e := End(aligned, off, header);
            End(aligned, off, header + CtxPieces(ctx))
            == if ctx.Some? then e + Pad(aligned, e, LargestAlign(ctx.value)) + CtxLength(aligned, ctx) else e
  {
    WrittenAppend(aligned, off, header, CtxPieces(ctx));
    if ctx.Some? {
      CtxWritten(aligned, End(aligned, off, header), ctx.value);
    }
  }

  // ---- writing ----

  /** Reservation flags: the ring buffer asks for the full timestamp, the client for the
      extended header. */
  datatype Flags = Flags(fullTimestamp: bool, extended: bool)

  predicate IsExtended(f: Flags) { f.fullTimestamp || f.extended }

  /** lttng_event_reserve: ids beyond the short range force the extended header. */
  function ReserveFlags(h: HeaderType, id: nat, fullTimestamp: bool): Flags {
    Flags(fullTimestamp, match h case Compact => id > 30 case Large => id > 65534)
  }

  /** The reservation context while a record is written: its offset in the buffer, and the
      bytes put there since the reservation. */
  class Writer {
    const aligned: bool
    var offset: nat
    var out: seq<byte>

    constructor (aligned: bool, offset: nat)
      ensures this.aligned == aligned && this.offset == offset && out == []
    {
      this.aligned, this.offset, this.out := aligned, offset, [];
    }

    /** The given writes happened between then and now. */
    ghost predicate Wrote(out0: seq<byte>, offset0: nat, ps: seq<Piece>)
      reads this
    {
      out == out0 + Written(aligned, offset0, ps) && offset == End(aligned, offset0, ps)
    }

    /** lib_ring_buffer_align_ctx followed by lib_ring_buffer_write */
    method Put(align: pos, data: seq<byte>)
      modifies this
      ensures Wrote(old(out), old(offset), [Piece(align, data)])
    {
      var pad := Pad(aligned, offset, align);
      WrittenOne(aligned, offset, Piece(align, data));
      out, offset := out + (Zeros(pad) + data), offset + pad + |data|;
    }

    lemma Joined(out0: seq<byte>, offset0: nat, a: seq<Piece>, out1: seq<byte>, offset1: nat, b: seq<Piece>)
      requires out1 == out0 + Written(aligned, offset0, a) && offset1 == End(aligned, offset0, a)
      requires Wrote(out1, offset1, b)
      ensures Wrote(out0, offset0, a + b)
    {
      WrittenAppend(aligned, offset0, a, b);
      Associative(out0, Written(aligned, offset0, a), Written(aligned, offset1, b));
    }

    /** ctx_record */
    method CtxRecord(ctx: Option<seq<CtxField>>)
      modifies this
      ensures Wrote(old(out), old(offset), CtxPieces(ctx))
    {
      if ctx.None? {
        return;
      }
      var fields := ctx.value;
      Put(LargestAlign(fields), []);
      ghost var first := [Piece(LargestAlign(fields), [])];
      assert Pieces(fields[..0]) == [] && first + [] == first;
      for i := 0 to |fields|
        invariant Wrote(old(out), old(offset), first + Pieces(fields[..i]))
      {
        ghost var out1, offset1 := out, offset;
        Record(fields[i]);
        Joined(old(out), old(offset), first + Pieces(fields[..i]), out1, offset1, fields[i].pieces);
        PiecesStep(first, fields, i);
      }
      assert fields[..|fields|] == fields;
    }

    /** A field's record callback. */
    method Record(f: CtxField)
      modifies this
      ensures Wrote(old(out), old(offset), f.pieces)
    {
      for i := 0 to |f.pieces|
        invariant Wrote(old(out), old(offset), f.pieces[..i])
      {
        ghost var out1, offset1 := out, offset;
        Put(f.pieces[i].align, f.pieces[i].data);
        Joined(old(out), old(offset), f.pieces[..i], out1, offset1, [f.pieces[i]]);
        assert f.pieces[..i] + [f.pieces[i]] == f.pieces[..i + 1];
      }
      assert f.pieces[..|f.pieces|] == f.pieces;
    }

    /** The header proper, on either path of lttng_write_event_header. */
    method PutHeader(h: HeaderType, f: Flags, id: nat, ts: word)
      modifies this
      ensures Wrote(old(out), old(offset), HeaderPieces(h, IsExtended(f), id, ts))
    {
      ghost var ps := HeaderPieces(h, IsExtended(f), id, ts);
      if !IsExtended(f) && h == Compact {
        Put(1, Bytes(id % 32 + 32 * (ts % TWO27), 4));
        return;
      }
      if h == Compact {
        Put(1, Bytes(31, 1));
      } else if IsExtended(f) {
        Put(1, Bytes(65535, 2));
      } else {
        Put(1, Bytes(id % 65536, 2));
      }
      ghost var out1, offset1 := out, offset;
      if !IsExtended(f) {
        Put(4, Bytes(ts % TWO32, 4));
        Joined(old(out), old(offset), [ps[0]], out1, offset1, [ps[1]]);
      } else {
        Put(8, Bytes(id, 4));
        Joined(old(out), old(offset), [ps[0]], out1, offset1, [ps[1]]);
        out1, offset1 := out, offset;
        Put(8, Bytes(ts, 8));
        Joined(old(out), old(offset), [ps[0]] + [ps[1]], out1, offset1, [ps[2]]);
        assert [ps[0]] + [ps[1]] + [ps[2]] == ps;
      }
    }

    /** lttng_write_event_header: header, contexts, and alignment for the payload. */
    method WriteEventHeader(h: HeaderType, f: Flags, id: nat, ts: word, ctx: Option<seq<CtxField>>, payloadAlign: pos)
      modifies this
      ensures Wrote(old(out), old(offset),
                    HeaderPieces(h, IsExtended(f), id, ts) + CtxPieces(ctx) + [Piece(payloadAlign, [])])
    {
      PutHeader(h, f, id, ts);
      ghost var out1, offset1 := out, offset;
      CtxRecord(ctx);
      Joined(old(out), old(offset), HeaderPieces(h, IsExtended(f), id, ts), out1, offset1, CtxPieces(ctx));
      out1, offset1 := out, offset;
      Put(payloadAlign, []);
      Joined(old(out), old(offset), HeaderPieces(h, IsExtended(f), id, ts) + CtxPieces(ctx),
             out1, offset1, [Piece(payloadAlign, [])]);
    }
  }

  // ---- reading back ----

  /** A header as its reader sees it. */
  datatype Header = Header(id: nat, ts: nat)

  function Field(out: seq<byte>, at: nat, n: nat): nat {
    if at + n <= |out| then LittleEndian(out[at..at + n]) else 0
  }

  /** The declared layout: a short id, and behind the reserved one an aligned full id and
      timestamp; base is the absolute offset of the header. */
  function ReadHeader(aligned: bool, h: HeaderType, base: nat, out: seq<byte>): Header {
    var short := if h == Compact then Field(out, 0, 1) % 32 else Field(out, 0, 2);
    var reserved := if h == Compact then 31 else 65535;
    var idSize := if h == Compact then 1 else 2;
    if short == reserved then
      var i := idSize + Pad(aligned, base + idSize, 8);
      var t := i + 4 + Pad(aligned, base + i + 4, 8);
      Header(Field(out, i, 4), Field(out, t, 8))
    else if h == Compact then Header(short, Field(out, 0, 4) / 32)
    else var t := 2 + Pad(aligned, base + 2, 4); Header(short, Field(out, t, 4))
  }

  /** A field behind other bytes and padding, whatever follows. */
  lemma FieldBehind(w: seq<byte>, z: seq<byte>, d: seq<byte>, rest: seq<byte>)
    ensures Field((w + (z + d)) + rest, |w| + |z|, |d|) == LittleEndian(d)
  {
    assert ((w + (z + d)) + rest)[|w| + |z|..|w| + |z| + |d|] == d;
  }

  lemma FieldInFront(d: seq<byte>, rest: seq<byte>)
    ensures Field(d + rest, 0, |d|) == LittleEndian(d)
  {
    assert (d + rest)[0..|d|] == d;
  }

  lemma Ranges()
    ensures Pow256(1) == 256 && Pow256(2) == 65536 && Pow256(4) == TWO32 && Pow256(8) == MODULUS
  {
    assert Pow256(6) == 65536 * Pow256(4) by { assert Pow256(5) == 256 * Pow256(4); }
    assert Pow256(8) == 256 * Pow256(7);
  }

  lemma FirstWritten(aligned: bool, base: nat, p: Piece)
    requires p.align == 1
    ensures Written(aligned, base, [p]) == p.data && End(aligned, base, [p]) == base + |p.data|
  {
    assert Missing(base, 1) == 0;
    WrittenOne(aligned, base, p);
    assert Zeros(0) + p.data == p.data;
  }

  function Gap(aligned: bool, at: nat, p: Piece): seq<byte> { Zeros(Pad(aligned, at, p.align)) }

  lemma TwoWritten(aligned: bool, base: nat, p: Piece, q: Piece)
    requires p.align == 1
    ensures Written(aligned, base, [p, q]) == p.data + (Gap(aligned, base + |p.data|, q) + q.data)
    ensures End(aligned, base, [p, q]) == base + |Written(aligned, base, [p, q])|
  {
    FirstWritten(aligned, base, p);
    assert [p, q] == [p] + [q];
    WrittenAppend(aligned, base, [p], [q]);
    WrittenOne(aligned, base + |p.data|, q);
  }

  lemma ThreeWritten(aligned: bool, base: nat, p: Piece, q: Piece, r: Piece)
    requires p.align == 1
    ensures var w := Written(aligned, base, [p, q]);
            Written(aligned, base, [p, q, r]) == w + (Gap(aligned, base + |w|, r) + r.data)
  {
    TwoWritten(aligned, base, p, q);
    assert [p, q, r] == [p, q] + [r];
    WrittenAppend(aligned, base, [p, q], [r]);
    WrittenOne(aligned, End(aligned, base, [p, q]), r);
  }

  /** Reading the writes of a header behind their padding. */
  lemma ReadSecond(aligned: bool, base: nat, p: Piece, q: Piece, rest: seq<byte>)
    requires p.align == 1
    ensures var out := Written(aligned, base, [p, q]) + rest;
            var at := |p.data| + Pad(aligned, base + |p.data|, q.align);
            && |Written(aligned, base, [p, q])| == at + |q.data|
            && Field(out, 0, |p.data|) == LittleEndian(p.data) && Field(out, at, |q.data|) == LittleEndian(q.data)
  {
    TwoWritten(aligned, base, p, q);
    var z := Gap(aligned, base + |p.data|, q);
    FieldBehind(p.data, z, q.data, rest);
    Associative(p.data, z + q.data, rest);
    FieldInFront(p.data, (z + q.data) + rest);
  }

  lemma ReadFront(aligned: bool, base: nat, p: Piece, q: Piece, w: seq<byte>, tail: seq<byte>, out: seq<byte>, at: nat)
    requires p.align == 1 && w == Written(aligned, base, [p, q]) && out == w + tail
    requires at == |p.data| + Pad(aligned, base + |p.data|, q.align)
    ensures Field(out, 0, |p.data|) == LittleEndian(p.data)
    ensures Field(out, at, |q.data|) == LittleEndian(q.data)
  {
    ReadSecond(aligned, base, p, q, tail);
  }

  lemma ReadBehind(aligned: bool, base: nat, p: Piece, q: Piece, r: Piece, rest: seq<byte>, w: seq<byte>,
                   tail: seq<byte>, out: seq<byte>, at: nat)
    requires p.align == 1 && w == Written(aligned, base, [p, q]) && out == Written(aligned, base, [p, q, r]) + rest
    requires tail == (Gap(aligned, base + |w|, r) + r.data) + rest && at == |w| + Pad(aligned, base + |w|, r.align)
    ensures out == w + tail && Field(out, at, |r.data|) == LittleEndian(r.data)
  {
    ThreeWritten(aligned, base, p, q, r);
    var z := Gap(aligned, base + |w|, r);
    FieldBehind(w, z, r.data, rest);
    Associative(w, z + r.data, rest);
  }

  lemma ReadThird(aligned: bool, base: nat, p: Piece, q: Piece, r: Piece, rest: seq<byte>, out: seq<byte>, at: nat,
                  at': nat)
    requires p.align == 1 && out == Written(aligned, base, [p, q, r]) + rest
    requires at == |p.data| + Pad(aligned, base + |p.data|, q.align)
    requires at' == at + |q.data| + Pad(aligned, base + at + |q.data|, r.align)
    ensures Field(out, 0, |p.data|) == LittleEndian(p.data) && Field(out, at, |q.data|) == LittleEndian(q.data)
    ensures Field(out, at', |r.data|) == LittleEndian(r.data)
  {
    var w := Written(aligned, base, [p, q]);
    var tail := (Gap(aligned, base + |w|, r) + r.data) + rest;
    TwoLength(aligned, base, p, q, w, at);
    assert at' == |w| + Pad(aligned, base + |w|, r.align);
    ReadBehind(aligned, base, p, q, r, rest, w, tail, out, at');
    ReadFront(aligned, base, p, q, w, tail, out, at);
  }

  lemma TwoLength(aligned: bool, base: nat, p: Piece, q: Piece, w: seq<byte>, at: nat)
    requires p.align == 1 && w == Written(aligned, base, [p, q])
    requires at == |p.data| + Pad(aligned, base + |p.data|, q.align)
    ensures |w| == at + |q.data|
  {
    TwoWritten(aligned, base, p, q);
  }

  /** A header whose short id is the reserved one. */
  lemma ExtendedFields(aligned: bool, h: HeaderType, base: nat, out: seq<byte>, n: nat, at: nat, at': nat, id: nat,
                       ts: nat)
    requires n == (if h == Compact then 1 else 2) && at == n + Pad(aligned, base + n, 8)
    requires at' == at + 4 + Pad(aligned, base + at + 4, 8) && Field(out, at, 4) == id && Field(out, at', 8) == ts
    requires Field(out, 0, n) == if h == Compact then 31 else 65535
    ensures ReadHeader(aligned, h, base, out) == Header(id, ts)
  {
  }

  /** The extended layout, whatever the field contents. */
  lemma ExtendedReads(aligned: bool, h: HeaderType, base: nat, p: Piece, q: Piece, r: Piece, rest: seq<byte>)
    requires p.align == 1 && q.align == 8 && r.align == 8 && |q.data| == 4 && |r.data| == 8
    requires |p.data| == (if h == Compact then 1 else 2)
    requires LittleEndian(p.data) == (if h == Compact then 31 else 65535)
    ensures ReadHeader(aligned, h, base, Written(aligned, base, [p, q, r]) + rest)
            == Header(LittleEndian(q.data), LittleEndian(r.data))
  {
    var out, at := Written(aligned, base, [p, q, r]) + rest, |p.data| + Pad(aligned, base + |p.data|, 8);
    var at' := at + 4 + Pad(aligned, base + at + 4, 8);
    ReadThird(aligned, base, p, q, r, rest, out, at, at');
    ExtendedFields(aligned, h, base, out, |p.data|, at, at', LittleEndian(q.data), LittleEndian(r.data));
  }

  lemma LargeReads(aligned: bool, base: nat, p: Piece, q: Piece, rest: seq<byte>)
    requires p.align == 1 && q.align == 4 && |p.data| == 2 && |q.data| == 4 && LittleEndian(p.data) != 65535
    ensures Field(Written(aligned, base, [p, q]) + rest, 0, 2) == LittleEndian(p.data)
    ensures ReadHeader(aligned, Large, base, Written(aligned, base, [p, q]) + rest)
            == Header(LittleEndian(p.data), LittleEndian(q.data))
  {
    ReadSecond(aligned, base, p, q, rest);
  }

  lemma CompactReads(aligned: bool, base: nat, p: Piece, rest: seq<byte>)
    requires p.align == 1 && |p.data| == 4 && LittleEndian(p.data) % 32 != 31
    ensures Field(Written(aligned, base, [p]) + rest, 0, 1) % 32 == LittleEndian(p.data) % 32
    ensures ReadHeader(aligned, Compact, base, Written(aligned, base, [p]) + rest)
            == Header(LittleEndian(p.data) % 32, LittleEndian(p.data) / 32)
  {
    FirstWritten(aligned, base, p);
    FieldInFront(p.data, rest);
    assert (p.data + rest)[0..1] == [p.data[0]];
    LowBits(p.data);
  }

  /** The five low bits are those of the first byte. */
  lemma LowBits(s: seq<byte>)
    requires |s| == 4
    ensures LittleEndian(s) % 32 == s[0] % 32 && LittleEndian([s[0]]) == s[0]
  {
    assert [s[0]][1..] == [];
    var m := LittleEndian(s[1..]);
    assert LittleEndian(s) == s[0] + 32 * (8 * m);
  }

  /** The header of a reserved record reads back: the event id always; the full timestamp behind
      an extended header, its low 27 or 32 bits otherwise. */
  lemma HeaderRoundTrip(aligned: bool, h: HeaderType, base: nat, id: nat, ts: word, fullTimestamp: bool,
                        rest: seq<byte>)
    requires id < TWO32
    ensures var ext := IsExtended(ReserveFlags(h, id, fullTimestamp));
            ReadHeader(aligned, h, base, Written(aligned, base, HeaderPieces(h, ext, id, ts)) + rest)
            == Header(id, if ext then ts else if h == Compact then ts % TWO27 else ts % TWO32)
  {
    var ext := IsExtended(ReserveFlags(h, id, fullTimestamp));
    if ext {
      ExtendedRoundTrip(aligned, h, base, id, ts, rest);
    } else if h == Compact {
      CompactRoundTrip(aligned, base, id, ts, rest);
    } else {
      LargeRoundTrip(aligned, base, id, ts, rest);
    }
  }

  lemma ExtendedRoundTrip(aligned: bool, h: HeaderType, base: nat, id: nat, ts: word, rest: seq<byte>)
    requires id < TWO32
    ensures ReadHeader(aligned, h, base, Written(aligned, base, HeaderPieces(h, true, id, ts)) + rest) == Header(id, ts)
  {
    Ranges();
    var n := if h == Compact then 1 else 2;
    var p := Piece(1, Bytes(if h == Compact then 31 else 65535, n));
    var q, r := Piece(8, Bytes(id, 4)), Piece(8, Bytes(ts, 8));
    BytesRoundTrip(if h == Compact then 31 else 65535, n);
    BytesRoundTrip(id, 4);
    BytesRoundTrip(ts, 8);
    ExtendedReads(aligned, h, base, p, q, r, rest);
    assert HeaderPieces(h, true, id, ts) == [p, q, r];
  }

  lemma CompactWord(id: nat, t: nat)
    requires id <= 30 && t < TWO27
    ensures var w := id + 32 * t; w < TWO32 && w % 32 == id && w / 32 == t
  {}

  /** The word of a compact header, and the pair of a large one, as written. */
  lemma CompactRoundTrip(aligned: bool, base: nat, id: nat, ts: word, rest: seq<byte>)
    requires id <= 30
    ensures ReadHeader(aligned, Compact, base, Written(aligned, base, HeaderPieces(Compact, false, id, ts)) + rest)
            == Header(id, ts % TWO27)
    ensures Field(Written(aligned, base, HeaderPieces(Compact, false, id, ts)) + rest, 0, 1) % 32 == id
  {
    var t := ts % TWO27;
    CompactWord(id, t);
    var p := Piece(1, Bytes(id + 32 * t, 4));
    assert HeaderPieces(Compact, false, id, ts) == [p];
    assert LittleEndian(p.data) == id + 32 * t by {
      Ranges();
      BytesRoundTrip(id + 32 * t, 4);
    }
    CompactReads(aligned, base, p, rest);
  }

  lemma LargeRoundTrip(aligned: bool, base: nat, id: nat, ts: word, rest: seq<byte>)
    requires id <= 65534
    ensures var out := Written(aligned, base, HeaderPieces(Large, false, id, ts)) + rest;
            ReadHeader(aligned, Large, base, out) == Header(id, ts % TWO32) && Field(out, 0, 2) == id
  {
    var t := ts % TWO32;
    var p, q := Piece(1, Bytes(id, 2)), Piece(4, Bytes(t, 4));
    assert HeaderPieces(Large, false, id, ts) == [p, q];
    assert LittleEndian(p.data) == id && LittleEndian(q.data) == t by {
      Ranges();
      BytesRoundTrip(id, 2);
      BytesRoundTrip(t, 4);
    }
    LargeReads(aligned, base, p, q, rest);
  }

  /** A short header never carries a reserved id. */
  lemma ShortIdIsNotReserved(aligned: bool, h: HeaderType, base: nat, id: nat, ts: word, fullTimestamp: bool,
                        rest: seq<byte>)
    requires !IsExtended(ReserveFlags(h, id, fullTimestamp))
    ensures var out := Written(aligned, base, HeaderPieces(h, false, id, ts)) + rest;
            if h == Compact then Field(out, 0, 1) % 32 != 31 else Field(out, 0, 2) != 65535
  {
    if h == Compact {
      CompactRoundTrip(aligned, base, id, ts, rest);
    } else {
      LargeRoundTrip(aligned, base, id, ts, rest);
    }
  }
}
