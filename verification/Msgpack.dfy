/** The part of MessagePack that captures use: what the writer emits for each captured value, and
    a reader that gives the values back. */
module Msgpack {
  import opened Words

  /** A decoded message. */
  datatype Message =
    | Nil
    | Int(v: int)
    | Str(s: seq<byte>)
    | Arr(items: seq<Message>)
    | Map(items: seq<Message>)

  /** struct lttng_interpreter_output: an integer or enumeration with its signedness, a string as
      the memory from its address on with its length if it has one, or a sequence of integers. */
  datatype Output =
    | Integer(signed: bool, v: int)
    | Enumeration(signed: bool, v: int)
    | Text(mem: seq<byte>, len: Option<nat>)
    | Sequence(signed: bool, elems: seq<int>)

  /** The values the output's C types can hold. */
  ghost predicate Ranged(signed: bool, v: int) {
    if signed then -0x8000_0000_0000_0000 <= v < 0x8000_0000_0000_0000 else 0 <= v < 0x1_0000_0000_0000_0000
  }

  ghost predicate IsOutput(o: Output) {
    match o
    case Integer(signed, v) => Ranged(signed, v)
    case Enumeration(signed, v) => Ranged(signed, v)
    case Text(mem, len) => StrLen(mem) < |mem| && (len.Some? ==> len.value <= |mem|)
    case Sequence(signed, elems) => forall k :: 0 <= k < |elems| ==> Ranged(signed, elems[k])
  }

  // Big-endian integers of one, two, four or eight bytes

  function Span(width: nat): (m: int)
    ensures m > 0
  {
    if width == 1 then 0x100
    else if width == 2 then 0x1_0000
    else if width == 4 then 0x1_0000_0000
    else 0x1_0000_0000_0000_0000
  }

  predicate IsWidth(width: nat) { width == 1 || width == 2 || width == 4 || width == 8 }

  function BigEndian(width: nat, n: nat): (s: seq<byte>)
    requires IsWidth(width) && n < Span(width)
    ensures |s| == width
  {
    if width == 1 then [n]
    else BigEndian(width / 2, n / Span(width / 2)) + BigEndian(width / 2, n % Span(width / 2))
  }

  function FromBigEndian(s: seq<byte>): (n: nat)
    requires IsWidth(|s|)
    ensures n < Span(|s|)
  {
    if |s| == 1 then s[0]
    else FromBigEndian(s[..|s| / 2]) * Span(|s| / 2) + FromBigEndian(s[|s| / 2..])
  }

  lemma {:induction false} BigEndianBack(width: nat, n: nat)
    requires IsWidth(width) && n < Span(width)
    ensures FromBigEndian(BigEndian(width, n)) == n
  {
    if width > 1 {
      var h := width / 2;
      BigEndianBack(h, n / Span(h));
      BigEndianBack(h, n % Span(h));
      var s := BigEndian(width, n);
      assert s[..h] == BigEndian(h, n / Span(h)) && s[h..] == BigEndian(h, n % Span(h));
    }
  }

  function Wrapped(width: nat, v: int): (n: nat)
    requires IsWidth(width) && -Span(width) / 2 <= v < Span(width)
    ensures n < Span(width)
  {
    if v < 0 then v + Span(width) else v
  }

  // The writer's encodings

  function SignedBytes(v: int): (s: seq<byte>)
    requires Ranged(true, v)
    ensures s != []
  {
    if -32 <= v <= 127 then BigEndian(1, Wrapped(1, v))
    else if -0x80 <= v <= 0x7f then [0xD0] + BigEndian(1, Wrapped(1, v))
    else if -0x8000 <= v <= 0x7fff then [0xD1] + BigEndian(2, Wrapped(2, v))
    else if -0x8000_0000 <= v <= 0x7fff_ffff then [0xD2] + BigEndian(4, Wrapped(4, v))
    else [0xD3] + BigEndian(8, Wrapped(8, v))
  }

  function UnsignedBytes(v: int): (s: seq<byte>)
    requires Ranged(false, v)
    ensures s != []
  {
    if v <= 127 then [v]
    else if v <= 0xff then [0xCC] + BigEndian(1, v)
    else if v <= 0xffff then [0xCD] + BigEndian(2, v)
    else if v <= 0xffff_ffff then [0xCE] + BigEndian(4, v)
    else [0xCF] + BigEndian(8, v)
  }

  function IntBytes(signed: bool, v: int): (s: seq<byte>)
    requires Ranged(signed, v)
    ensures s != []
  {
    if signed then SignedBytes(v) else UnsignedBytes(v)
  }

  function StrBytes(s: seq<byte>): seq<byte>
    requires |s| < 0x1_0000
  {
    if |s| <= 31 then [0xA0 + |s|] + s else [0xDA] + BigEndian(2, |s|) + s
  }

  function ArrayHeader(count: nat): (s: seq<byte>)
    requires count < 0x1_0000
    ensures |s| == if count <= 15 then 1 else 3
  {
    if count <= 15 then [0x90 + count] else [0xDC] + BigEndian(2, count)
  }

  function IntsBytes(signed: bool, vs: seq<int>): seq<byte>
    requires forall k :: 0 <= k < |vs| ==> Ranged(signed, vs[k])
  {
    if vs == [] then [] else IntsBytes(signed, vs[..|vs| - 1]) + IntBytes(signed, vs[|vs| - 1])
  }

  const TYPE: seq<byte> := [0x74, 0x79, 0x70, 0x65]
  const ENUM: seq<byte> := [0x65, 0x6e, 0x75, 0x6d]
  const VALUE: seq<byte> := [0x76, 0x61, 0x6c, 0x75, 0x65]

  /** An enumeration's value goes through the signed writer whatever its signedness. */
  function Reinterpreted(v: int): (r: int)
    requires Ranged(true, v) || Ranged(false, v)
    ensures Ranged(true, r)
  {
    if v >= 0x8000_0000_0000_0000 then v - 0x1_0000_0000_0000_0000 else v
  }

  /** The bytes notification_append_capture writes when they fit; None when it fails anyway,
      because a count does not fit sixteen bits. */
  function Encoded(o: Output): (r: Option<seq<byte>>)
    requires IsOutput(o)
  {
    match o
    case Integer(signed, v) => Some(IntBytes(signed, v))
    case Enumeration(_, v) =>
      Some([0x82] + StrBytes(TYPE) + StrBytes(ENUM) + StrBytes(VALUE) + SignedBytes(Reinterpreted(v)))
    case Text(mem, _) => if StrLen(mem) < 0x1_0000 then Some(StrBytes(mem[..StrLen(mem)])) else None
    case Sequence(signed, elems) =>
      if |elems| < 0x1_0000 then Some(ArrayHeader(|elems|) + IntsBytes(signed, elems)) else None
  }

  function Ints(vs: seq<int>): (r: seq<Message>)
    ensures |r| == |vs| && forall k :: 0 <= k < |vs| ==> r[k] == Int(vs[k])
  {
    if vs == [] then [] else Ints(vs[..|vs| - 1]) + [Int(vs[|vs| - 1])]
  }

  /** What a consumer is meant to see. */
  function Meaning(o: Output): Message
    requires IsOutput(o)
  {
    match o
    case Integer(_, v) => Int(v)
    case Enumeration(_, v) => Map([Str(TYPE), Str(ENUM), Str(VALUE), Int(v)])
    case Text(mem, len) => Str(mem[..if len.Some? then len.value else StrLen(mem)])
    case Sequence(_, elems) => Arr(Ints(elems))
  }

  // The reader

  function ReadInt(s: seq<byte>, width: nat, signed: bool): (r: Option<(Message, seq<byte>)>)
    requires IsWidth(width)
    ensures r.Some? ==> |r.value.1| < |s|
  {
    if |s| < width then None
    else
      var n := FromBigEndian(s[..width]);
      Some((Int(if signed && n >= Span(width) / 2 then n - Span(width) else n), s[width..]))
  }

  function ReadBytes(s: seq<byte>, n: nat): (r: Option<(Message, seq<byte>)>)
    ensures r.Some? ==> |r.value.1| <= |s|
  {
    if |s| < n then None else Some((Str(s[..n]), s[n..]))
  }

  function Read(s: seq<byte>): (r: Option<(Message, seq<byte>)>)
    ensures r.Some? ==> |r.value.1| < |s|
    decreases |s|, 0
  {
    if s == [] then None
    else
      var tag: int := s[0];
      var rest := s[1..];
      if tag <= 0x7F then Some((Int(tag), rest))
      else if tag <= 0x8F then ReadMap(rest, tag - 0x80)
      else if tag <= 0x9F then ReadArray(rest, tag - 0x90)
      else if tag <= 0xBF then ReadBytes(rest, tag - 0xA0)
      else if tag >= 0xE0 then Some((Int(tag - 0x100), rest))
      else if tag == 0xC0 then Some((Nil, rest))
      else if 0xCC <= tag <= 0xCF then ReadInt(rest, Width(tag - 0xCC), false)
      else if 0xD0 <= tag <= 0xD3 then ReadInt(rest, Width(tag - 0xD0), true)
      else if |rest| < 2 then None
      else if tag == 0xDA then ReadBytes(rest[2..], FromBigEndian(rest[..2]))
      else if tag == 0xDC then ReadArray(rest[2..], FromBigEndian(rest[..2]))
      else None
  }

  function Width(k: nat): (w: nat)
    requires k < 4
    ensures IsWidth(w)
  {
    if k == 0 then 1 else if k == 1 then 2 else if k == 2 then 4 else 8
  }

  function ReadArray(s: seq<byte>, count: nat): (r: Option<(Message, seq<byte>)>)
    ensures r.Some? ==> |r.value.1| <= |s|
    decreases |s|, 2
  {
    match ReadMany(s, count) case None => None case Some((ms, rest)) => Some((Arr(ms), rest))
  }

  function ReadMap(s: seq<byte>, count: nat): (r: Option<(Message, seq<byte>)>)
    ensures r.Some? ==> |r.value.1| <= |s|
    decreases |s|, 2
  {
    match ReadMany(s, 2 * count) case None => None case Some((ms, rest)) => Some((Map(ms), rest))
  }

  function ReadMany(s: seq<byte>, count: nat): (r: Option<(seq<Message>, seq<byte>)>)
    ensures r.Some? ==> |r.value.1| <= |s|
    decreases |s|, 1
  {
    if count == 0 then Some(([], s))
    else
      match Read(s)
      case None => None
      case Some((m, rest)) =>
        match ReadMany(rest, count - 1) case None => None case Some((ms, end)) => Some(([m] + ms, end))
  }

  // Reading back

  /** The bytes are read as the message whatever follows them. */
  ghost predicate Stands(bytes: seq<byte>, m: Message) {
    forall rest :: Read(bytes + rest) == Some((m, rest))
  }

  /** The same for several messages in a row. */
  ghost predicate StandAll(bytes: seq<byte>, ms: seq<Message>) {
    forall rest :: ReadMany(bytes + rest, |ms|) == Some((ms, rest))
  }

  lemma Tagged(tag: byte, a: seq<byte>, rest: seq<byte>)
    ensures ([tag] + a + rest)[0] == tag && ([tag] + a + rest)[1..] == a + rest
  {
  }

  lemma IntPayload(width: nat, v: int, signed: bool, rest: seq<byte>)
    requires IsWidth(width)
    requires if signed then -Span(width) / 2 <= v < Span(width) / 2 else 0 <= v < Span(width)
    ensures ReadInt(BigEndian(width, Wrapped(width, v)) + rest, width, signed) == Some((Int(v), rest))
  {
    var s := BigEndian(width, Wrapped(width, v)) + rest;
    BigEndianBack(width, Wrapped(width, v));
    assert s[..width] == BigEndian(width, Wrapped(width, v)) && s[width..] == rest;
  }

  lemma TaggedInt(k: nat, v: int, signed: bool, rest: seq<byte>)
    requires k < 4
    requires var w := Width(k); if signed then -Span(w) / 2 <= v < Span(w) / 2 else 0 <= v < Span(w)
    ensures Read([if signed then 0xD0 + k else 0xCC + k] + BigEndian(Width(k), Wrapped(Width(k), v)) + rest)
            == Some((Int(v), rest))
  {
    Tagged(if signed then 0xD0 + k else 0xCC + k, BigEndian(Width(k), Wrapped(Width(k), v)), rest);
    IntPayload(Width(k), v, signed, rest);
  }

  lemma SmallBack(v: int, rest: seq<byte>)
    requires -32 <= v <= 127
    ensures Read([Wrapped(1, v)] + rest) == Some((Int(v), rest))
  {
    Tagged(Wrapped(1, v), [], rest);
    assert [Wrapped(1, v)] + [] == [Wrapped(1, v)] && [] + rest == rest;
  }

  /** The width that a larger value is written in. */
  lemma SignedShape(v: int) returns (k: nat)
    requires Ranged(true, v) && !(-32 <= v <= 127)
    ensures k < 4 && -Span(Width(k)) / 2 <= v < Span(Width(k)) / 2
    ensures SignedBytes(v) == [0xD0 + k] + BigEndian(Width(k), Wrapped(Width(k), v))
  {
    k := if -0x80 <= v <= 0x7f then 0 else if -0x8000 <= v <= 0x7fff then 1
         else if -0x8000_0000 <= v <= 0x7fff_ffff then 2 else 3;
  }

  lemma SignedBack(v: int, rest: seq<byte>)
    requires Ranged(true, v)
    ensures Read(SignedBytes(v) + rest) == Some((Int(v), rest))
  {
    if -32 <= v <= 127 {
      SmallBack(v, rest);
    } else {
      var k := SignedShape(v);
      TaggedInt(k, v, true, rest);
    }
  }

  lemma UnsignedBack(v: int, rest: seq<byte>)
    requires Ranged(false, v)
    ensures Read(UnsignedBytes(v) + rest) == Some((Int(v), rest))
  {
    if v <= 127 {
      Tagged(v, [], rest);
      assert [v] + [] == [v] && [] + rest == rest;
    } else if v <= 0xff {
      TaggedInt(0, v, false, rest);
    } else if v <= 0xffff {
      TaggedInt(1, v, false, rest);
    } else if v <= 0xffff_ffff {
      TaggedInt(2, v, false, rest);
    } else {
      TaggedInt(3, v, false, rest);
    }
  }

  lemma IntStands(signed: bool, v: int)
    requires Ranged(signed, v)
    ensures Stands(IntBytes(signed, v), Int(v))
  {
    forall rest ensures Read(IntBytes(signed, v) + rest) == Some((Int(v), rest)) {
      if signed {
        SignedBack(v, rest);
      } else {
        UnsignedBack(v, rest);
      }
    }
  }

  lemma StrBack(s: seq<byte>, rest: seq<byte>)
    requires |s| < 0x1_0000
    ensures Read(StrBytes(s) + rest) == Some((Str(s), rest))
  {
    assert (s + rest)[..|s|] == s && (s + rest)[|s|..] == rest;
    if |s| <= 31 {
      Tagged(0xA0 + |s|, s, rest);
    } else {
      var len := BigEndian(2, |s|);
      Associative([0xDA], len, s);
      Tagged(0xDA, len + s, rest);
      Associative(len, s, rest);
      assert (len + (s + rest))[..2] == len && (len + (s + rest))[2..] == s + rest;
      BigEndianBack(2, |s|);
    }
  }

  lemma StrStands(s: seq<byte>)
    requires |s| < 0x1_0000
    ensures Stands(StrBytes(s), Str(s))
  {
    forall rest ensures Read(StrBytes(s) + rest) == Some((Str(s), rest)) {
      StrBack(s, rest);
    }
  }

  /** Messages one after the other are read one after the other. */
  lemma {:induction false} ReadManyAppend(a: seq<byte>, ms: seq<Message>, b: seq<byte>, m: Message)
    requires StandAll(a, ms) && Stands(b, m)
    ensures StandAll(a + b, ms + [m])
  {
    forall rest ensures ReadMany(a + b + rest, |ms + [m]|) == Some((ms + [m], rest)) {
      Associative(a, b, rest);
      assert ReadMany(a + (b + rest), |ms|) == Some((ms, b + rest));
      ReadManyMore(a + (b + rest), ms, b + rest, m, rest);
    }
  }

  lemma {:induction false} ReadManyMore(s: seq<byte>, ms: seq<Message>, mid: seq<byte>, m: Message, end: seq<byte>)
    requires ReadMany(s, |ms|) == Some((ms, mid)) && Read(mid) == Some((m, end))
    ensures ReadMany(s, |ms| + 1) == Some((ms + [m], end))
    decreases |ms|
  {
    if ms == [] {
      assert ReadMany(end, 0) == Some(([], end));
      assert [m] + [] == [] + [m];
    } else {
      var first := Read(s).value;
      var others := ReadMany(first.1, |ms| - 1).value.0;
      assert ms == [first.0] + others && ms[1..] == others;
      ReadManyMore(first.1, others, mid, m, end);
      assert [first.0] + (others + [m]) == ms + [m];
    }
  }

  lemma NoneStand()
    ensures StandAll([], [])
  {
    forall rest ensures ReadMany([] + rest, 0) == Some(([], rest)) {
      assert [] + rest == rest;
    }
  }

  lemma {:induction false} IntsStand(signed: bool, vs: seq<int>)
    requires forall k :: 0 <= k < |vs| ==> Ranged(signed, vs[k])
    ensures StandAll(IntsBytes(signed, vs), Ints(vs))
  {
    if vs == [] {
      NoneStand();
    } else {
      IntsStand(signed, vs[..|vs| - 1]);
      IntStands(signed, vs[|vs| - 1]);
      ReadManyAppend(IntsBytes(signed, vs[..|vs| - 1]), Ints(vs[..|vs| - 1]),
                     IntBytes(signed, vs[|vs| - 1]), Int(vs[|vs| - 1]));
    }
  }

  lemma ArrayStands(body: seq<byte>, ms: seq<Message>)
    requires |ms| < 0x1_0000 && StandAll(body, ms)
    ensures Stands(ArrayHeader(|ms|) + body, Arr(ms))
  {
    forall rest ensures Read(ArrayHeader(|ms|) + body + rest) == Some((Arr(ms), rest)) {
      if |ms| <= 15 {
        Tagged(0x90 + |ms|, body, rest);
      } else {
        var len := BigEndian(2, |ms|);
        Associative([0xDC], len, body);
        Tagged(0xDC, len + body, rest);
        Associative(len, body, rest);
        assert (len + (body + rest))[..2] == len && (len + (body + rest))[2..] == body + rest;
        BigEndianBack(2, |ms|);
      }
    }
  }

  lemma EnumStands(v: int)
    requires Ranged(true, v)
    ensures Stands([0x82] + StrBytes(TYPE) + StrBytes(ENUM) + StrBytes(VALUE) + SignedBytes(v),
                   Map([Str(TYPE), Str(ENUM), Str(VALUE), Int(v)]))
  {
    var a, b, c, d := StrBytes(TYPE), StrBytes(ENUM), StrBytes(VALUE), SignedBytes(v);
    NoneStand();
    StrStands(TYPE);
    ReadManyAppend([], [], a, Str(TYPE));
    StrStands(ENUM);
    ReadManyAppend([] + a, [] + [Str(TYPE)], b, Str(ENUM));
    StrStands(VALUE);
    ReadManyAppend([] + a + b, [] + [Str(TYPE)] + [Str(ENUM)], c, Str(VALUE));
    IntStands(true, v);
    ReadManyAppend([] + a + b + c, [] + [Str(TYPE)] + [Str(ENUM)] + [Str(VALUE)], d, Int(v));
    var ms := [Str(TYPE), Str(ENUM), Str(VALUE), Int(v)];
    assert [] + [Str(TYPE)] + [Str(ENUM)] + [Str(VALUE)] + [Int(v)] == ms;
    var body := [] + a + b + c + d;
    forall rest ensures Read([0x82] + a + b + c + d + rest) == Some((Map(ms), rest)) {
      EnumShape(a, b, c, d);
      Tagged(0x82, body, rest);
      assert ReadMany(body + rest, |ms|) == Some((ms, rest));
    }
  }

  lemma EnumShape(a: seq<byte>, b: seq<byte>, c: seq<byte>, d: seq<byte>)
    ensures [0x82] + a + b + c + d == [0x82] + ([] + a + b + c + d)
  {
  }

  /** An enumeration value that the signed writer changes, or a text whose length the writer of
      strings does not heed and does not meet. */
  predicate Misread(o: Output) {
    || (o.Enumeration? && !o.signed && o.v >= 0x8000_0000_0000_0000)
    || (o.Text? && o.len.Some? && o.len.value != StrLen(o.mem))
  }

  /** What a reader makes of the bytes: the value itself, but for a misread enumeration the
      negative number of the same 64 bits, and for a misread text the memory up to its first NUL. */
  function Seen(o: Output): Message
    requires IsOutput(o)
  {
    if !Misread(o) then Meaning(o)
    else if o.Text? then Str(o.mem[..StrLen(o.mem)])
    else Map([Str(TYPE), Str(ENUM), Str(VALUE), Int(o.v - 0x1_0000_0000_0000_0000)])
  }

  lemma SeenDiffers(o: Output)
    requires IsOutput(o) && Misread(o)
    ensures Seen(o) != Meaning(o)
  {
    if o.Text? {
      assert |Seen(o).s| == StrLen(o.mem) && |Meaning(o).s| == o.len.value;
    } else {
      assert Seen(o).items[3] != Meaning(o).items[3];
    }
  }

  lemma EncodedSeen(o: Output)
    requires IsOutput(o) && Encoded(o).Some?
    ensures Encoded(o).value != [] && Stands(Encoded(o).value, Seen(o))
  {
    match o
    case Integer(signed, v) => IntStands(signed, v);
    case Enumeration(_, v) => EnumStands(Reinterpreted(v));
    case Text(mem, _) => StrStands(mem[..StrLen(mem)]);
    case Sequence(signed, elems) =>
      IntsStand(signed, elems);
      ArrayStands(IntsBytes(signed, elems), Ints(elems));
  }

  /** A captured value can be encoded exactly when no count in it reaches 2^16: a text has a NUL
      before, a sequence has fewer elements. */
  lemma EncodableExactly(o: Output)
    requires IsOutput(o)
    ensures Encoded(o).Some? <==>
            match o
            case Text(mem, _) => exists n :: 0 <= n < 0x1_0000 && n < |mem| && mem[n] == 0
            case Sequence(_, elems) => |elems| < 0x1_0000
            case _ => true
  {
    if o.Text? && StrLen(o.mem) < 0x1_0000 {
      assert o.mem[StrLen(o.mem)] == 0;
    }
  }

  /** A captured value that can be encoded is read back as what it means, exactly unless it is an
      unsigned enumeration value of 2^63 or more, or a text with a length that is not the place of
      its first NUL. */
  lemma EncodedStands(o: Output)
    requires IsOutput(o) && Encoded(o).Some?
    ensures Stands(Encoded(o).value, Meaning(o)) <==> !Misread(o)
  {
    EncodedSeen(o);
    if Misread(o) {
      assert Read(Encoded(o).value + []) == Some((Seen(o), []));
      SeenDiffers(o);
    }
  }

  /** The smallest such value is written like the most negative signed one. */
  lemma EnumMisread()
    ensures var o := Enumeration(false, 0x8000_0000_0000_0000);
            && IsOutput(o) && Encoded(o) == Encoded(Enumeration(true, -0x8000_0000_0000_0000))
            && !Stands(Encoded(o).value, Meaning(o))
  {
    EncodedStands(Enumeration(false, 0x8000_0000_0000_0000));
  }

  /** Two characters of a longer buffer are captured with what follows them, and two of which the
      second is NUL without it. */
  lemma TextMisread()
    ensures var o := Text([97, 98, 99, 0], Some(2));
            && IsOutput(o) && Seen(o) == Str([97, 98, 99]) && Meaning(o) == Str([97, 98])
            && !Stands(Encoded(o).value, Meaning(o))
    ensures var o := Text([97, 0], Some(2));
            && IsOutput(o) && Seen(o) == Str([97]) && Meaning(o) == Str([97, 0])
            && !Stands(Encoded(o).value, Meaning(o))
  {
    var long, short := [97, 98, 99, 0], [97, 0];
    StrLenUnique(long, 3);
    StrLenUnique(short, 1);
    assert long[..3] == [97, 98, 99] && long[..2] == [97, 98] && short[..1] == [97] && short[..2] == short;
    EncodedStands(Text(long, Some(2)));
    EncodedStands(Text(short, Some(2)));
  }

  lemma NilStands()
    ensures Stands([0xC0], Nil)
  {
    forall rest ensures Read([0xC0] + rest) == Some((Nil, rest)) {
      assert ([0xC0] + rest)[1..] == rest;
    }
  }
}
