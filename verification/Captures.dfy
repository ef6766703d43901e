/** The notification of an event notifier: its captured values, packed into a buffer of fixed size
    in which every later capture keeps room for at least an empty value. */
module Captures {
  import opened Words
  import opened Msgpack

  const CAPTURE_BUFFER_SIZE := 512
  const NIL_BYTES: seq<byte> := [0xC0]

  /** What the program of a capture yields: nothing when the interpreter fails. */
  type Result = Option<Output>

  ghost predicate AreResults(rs: seq<Result>) {
    forall k :: 0 <= k < |rs| ==> rs[k].Some? ==> IsOutput(rs[k].value)
  }

  /** captures_left after k captures, a size_t that wraps below zero. */
  function Left(num: nat, k: nat): (n: nat)
    requires k - num < MODULUS
    ensures k <= num ==> n == num - k
  {
    if k <= num then num - k else MODULUS - (k - num)
  }

  /** The capture is kept: it can be encoded, and leaves room for the captures after it. */
  predicate Kept(r: Result, pos: nat, left: nat)
    requires r.Some? ==> IsOutput(r.value)
  {
    r.Some? && Encoded(r.value).Some? && pos + |Encoded(r.value).value| + left <= CAPTURE_BUFFER_SIZE
  }

  /** What one capture adds to the buffer: its value, an empty value, or nothing in a full buffer. */
  function CaptureBytes(r: Result, pos: nat, left: nat): (s: seq<byte>)
    requires r.Some? ==> IsOutput(r.value)
    ensures pos + 1 + left <= CAPTURE_BUFFER_SIZE ==> pos + |s| + left <= CAPTURE_BUFFER_SIZE
    ensures pos <= CAPTURE_BUFFER_SIZE ==> pos + |s| <= CAPTURE_BUFFER_SIZE
  {
    if Kept(r, pos, left) then Encoded(r.value).value
    else if pos + 1 <= CAPTURE_BUFFER_SIZE then NIL_BYTES
    else []
  }

  function CaptureMessages(r: Result, pos: nat, left: nat): seq<Message>
    requires r.Some? ==> IsOutput(r.value)
  {
    if Kept(r, pos, left) then [Seen(r.value)] else if pos + 1 <= CAPTURE_BUFFER_SIZE then [Nil] else []
  }

  /** A header of num captures, and as many programs as memory can hold. */
  ghost predicate Posed(num: nat, rs: seq<Result>, k: nat) {
    num < 0x1_0000 && k <= |rs| < MODULUS / 2 && AreResults(rs)
  }

  /** The buffer after the first k programs. */
  function Filled(num: nat, rs: seq<Result>, k: nat): (s: seq<byte>)
    requires Posed(num, rs, k)
  {
    if k == 0 then ArrayHeader(num)
    else
      var s := Filled(num, rs, k - 1);
      s + CaptureBytes(rs[k - 1], |s|, Left(num, k))
  }

  /** The values a consumer finds, in the order of the programs. */
  function Found(num: nat, rs: seq<Result>, k: nat): (ms: seq<Message>)
    requires Posed(num, rs, k)
  {
    if k == 0 then []
    else Found(num, rs, k - 1) + CaptureMessages(rs[k - 1], |Filled(num, rs, k - 1)|, Left(num, k))
  }

  /** The header fits together with an empty value for every capture. */
  predicate HasRoom(num: nat) {
    num == 0 || (num < 0x1_0000 && |ArrayHeader(num)| + num <= CAPTURE_BUFFER_SIZE)
  }

  lemma RoomExactly(num: nat)
    ensures HasRoom(num) <==> num <= CAPTURE_BUFFER_SIZE - 3
  {
  }

  /** Room for the captures not yet written is kept throughout, so that each of them is there. */
  lemma {:induction false} FilledFits(num: nat, rs: seq<Result>, k: nat)
    requires Posed(num, rs, k) && num > 0 && HasRoom(num)
    ensures |Filled(num, rs, k)| <= CAPTURE_BUFFER_SIZE
    ensures k <= num ==> |Filled(num, rs, k)| + (num - k) <= CAPTURE_BUFFER_SIZE && |Found(num, rs, k)| == k
  {
    if k > 0 {
      FilledFits(num, rs, k - 1);
    }
  }

  lemma CaptureStands(r: Result, pos: nat, left: nat)
    requires r.Some? ==> IsOutput(r.value)
    ensures var b, ms := CaptureBytes(r, pos, left), CaptureMessages(r, pos, left);
            if ms == [] then b == [] else b != [] && |ms| == 1 && Stands(b, ms[0])
  {
    if Kept(r, pos, left) {
      EncodedSeen(r.value);
    } else {
      NilStands();
    }
  }

  /** What follows the header. */
  function Body(num: nat, rs: seq<Result>, k: nat): (s: seq<byte>)
    requires Posed(num, rs, k)
  {
    if k == 0 then [] else Body(num, rs, k - 1) + CaptureBytes(rs[k - 1], |Filled(num, rs, k - 1)|, Left(num, k))
  }

  lemma {:induction false} BodyStands(num: nat, rs: seq<Result>, k: nat)
    requires Posed(num, rs, k)
    ensures Filled(num, rs, k) == ArrayHeader(num) + Body(num, rs, k)
    ensures StandAll(Body(num, rs, k), Found(num, rs, k))
  {
    if k == 0 {
      NoneStand();
      assert ArrayHeader(num) + [] == ArrayHeader(num);
    } else {
      BodyStands(num, rs, k - 1);
      var pos, left := |Filled(num, rs, k - 1)|, Left(num, k);
      var b, c, ms := Body(num, rs, k - 1), CaptureBytes(rs[k - 1], pos, left), CaptureMessages(rs[k - 1], pos, left);
      CaptureStands(rs[k - 1], pos, left);
      if ms == [] {
        assert b + c == b && Found(num, rs, k - 1) + ms == Found(num, rs, k - 1);
      } else {
        ReadManyAppend(b, Found(num, rs, k - 1), c, ms[0]);
        assert ms == [ms[0]];
      }
      Associative(ArrayHeader(num), b, c);
    }
  }

  /** With a program for each capture, whatever they yield, the message fits the buffer and is
      read as an array of one value for each program. */
  lemma NotificationReadsBack(num: nat, rs: seq<Result>)
    requires 0 < num == |rs| && HasRoom(num) && AreResults(rs)
    ensures |Filled(num, rs, num)| <= CAPTURE_BUFFER_SIZE && |Found(num, rs, num)| == num
    ensures Read(Filled(num, rs, num)) == Some((Arr(Found(num, rs, num)), []))
  {
    FilledFits(num, rs, num);
    ReadsFirst(num, rs, []);
    assert Filled(num, rs, num) + [] == Filled(num, rs, num);
  }

  lemma ReadsFirst(num: nat, rs: seq<Result>, rest: seq<byte>)
    requires 0 < num <= |rs| && Posed(num, rs, |rs|) && HasRoom(num)
    ensures Read(Filled(num, rs, num) + rest) == Some((Arr(Found(num, rs, num)), rest))
  {
    FilledFits(num, rs, num);
    BodyStands(num, rs, num);
    ArrayStands(Body(num, rs, num), Found(num, rs, num));
    assert Read(ArrayHeader(num) + Body(num, rs, num) + rest) == Some((Arr(Found(num, rs, num)), rest));
  }

  /** The values stand in the order of the programs. One is empty when its program yields nothing
      that can be encoded and leaves room for an empty value of every later capture; it is what the
      program yielded otherwise, but for an unsigned enumeration value of 2^63 or more and a text
      whose first NUL is not at its length. */
  lemma {:induction false} FoundAt(num: nat, rs: seq<Result>, n: nat, k: nat)
    requires Posed(num, rs, n) && k < n <= num && HasRoom(num)
    ensures |Found(num, rs, n)| == n
    ensures var m, kept := Found(num, rs, n)[k], Kept(rs[k], |Filled(num, rs, k)|, num - 1 - k);
            && (!kept ==> m == Nil)
            && (kept ==> m == Seen(rs[k].value) && (m == Meaning(rs[k].value) <==> !Misread(rs[k].value)))
  {
    FilledFits(num, rs, n);
    FilledFits(num, rs, n - 1);
    if k < n - 1 {
      FoundAt(num, rs, n - 1, k);
    } else if Kept(rs[k], |Filled(num, rs, k)|, num - 1 - k) && Misread(rs[k].value) {
      SeenDiffers(rs[k].value);
    }
  }

  lemma {:induction false} FilledGrows(num: nat, rs: seq<Result>, m: nat, n: nat)
    requires Posed(num, rs, n) && m <= n
    ensures Filled(num, rs, m) <= Filled(num, rs, n)
    decreases n
  {
    if m < n {
      FilledGrows(num, rs, m, n - 1);
    }
  }

  lemma {:induction false} ReadManyShort(s: seq<byte>, ms: seq<Message>, n: nat)
    requires ReadMany(s, |ms|) == Some((ms, [])) && n > |ms|
    ensures ReadMany(s, n).None?
    decreases |ms|
  {
    if ms != [] {
      var first := Read(s).value;
      var others := ReadMany(first.1, |ms| - 1).value.0;
      assert ms == [first.0] + others && ms[1..] == others;
      ReadManyShort(first.1, others, n - 1);
    }
  }

  lemma TooFew(num: nat, rs: seq<Result>)
    requires |rs| < num && Posed(num, rs, |rs|) && HasRoom(num)
    ensures Read(Filled(num, rs, |rs|)).None?
  {
    var body, ms, s := Body(num, rs, |rs|), Found(num, rs, |rs|), Filled(num, rs, |rs|);
    FilledFits(num, rs, |rs|);
    BodyStands(num, rs, |rs|);
    assert ReadMany(body + [], |ms|) == Some((ms, []));
    assert body + [] == body;
    ReadManyShort(body, ms, num);
    HeaderReads(num, body);
  }

  lemma HeaderReads(num: nat, body: seq<byte>)
    requires num < 0x1_0000
    ensures Read(ArrayHeader(num) + body) == ReadArray(body, num)
  {
    assert [] + body == body;
    if num <= 15 {
      assert ([0x90 + num] + body)[1..] == body;
    } else {
      var len := BigEndian(2, num);
      Tagged(0xDC, len, body);
      assert (len + body)[..2] == len && (len + body)[2..] == body;
      BigEndianBack(2, num);
    }
  }

  lemma WholeOrMore(num: nat, rs: seq<Result>, s: seq<byte>, first: seq<byte>)
    requires 0 < num <= |rs| && Posed(num, rs, |rs|) && HasRoom(num) && first == Filled(num, rs, num) && first <= s
    ensures (exists ms :: Read(s) == Some((Arr(ms), []))) <==> s == first
  {
    var rest := s[|first|..];
    ReadsFirst(num, rs, rest);
    assert s == first + rest;
    if rest == [] {
      assert Read(s) == Some((Arr(Found(num, rs, num)), []));
    }
  }

  /** Whatever the number of programs, the message is one whole array exactly when there are at
      least as many as captures and those beyond added nothing. */
  lemma WholeExactly(num: nat, rs: seq<Result>)
    requires 0 < num && Posed(num, rs, |rs|) && HasRoom(num)
    ensures (exists ms :: Read(Filled(num, rs, |rs|)) == Some((Arr(ms), [])))
            <==> |rs| >= num && Filled(num, rs, |rs|) == Filled(num, rs, num)
  {
    if |rs| < num {
      TooFew(num, rs);
    } else {
      FilledGrows(num, rs, num, |rs|);
      var s, first := Filled(num, rs, |rs|), Filled(num, rs, num);
      WholeOrMore(num, rs, s, first);
    }
  }

  /** struct lttng_msgpack_writer over the capture buffer. */
  class Writer {
    const buffer: array<byte>
    var pos: nat

    ghost predicate Valid()
      reads this
    {
      buffer.Length == CAPTURE_BUFFER_SIZE && pos <= CAPTURE_BUFFER_SIZE
    }

    ghost function Contents(): seq<byte>
      requires Valid()
      reads this, buffer
    {
      buffer[..pos]
    }

    constructor ()
      ensures Valid() && fresh(buffer) && Contents() == []
    {
      buffer := new byte[CAPTURE_BUFFER_SIZE](_ => 0);
      pos := 0;
    }

    /** A write of the given bytes succeeds exactly when they fit; a failed one may have written
        some of them. */
    twostate predicate Wrote(bytes: seq<byte>, ok: bool)
      requires old(Valid()) && Valid()
      reads this, buffer
    {
      && ok == (old(pos) + |bytes| <= CAPTURE_BUFFER_SIZE)
      && (ok ==> Contents() == old(Contents()) + bytes)
      && old(pos) <= pos && buffer[..old(pos)] == old(Contents())
    }

    method Append(bytes: seq<byte>) returns (ok: bool)
      requires Valid()
      modifies this, buffer
      ensures Valid() && Wrote(bytes, ok) && (!ok ==> pos == old(pos))
    {
      if pos + |bytes| > CAPTURE_BUFFER_SIZE {
        return false;
      }
      forall k | 0 <= k < |bytes| { buffer[pos + k] := bytes[k]; }
      pos := pos + |bytes|;
      assert buffer[..pos] == old(buffer[..pos]) + bytes;
      return true;
    }

    method AppendBoth(a: seq<byte>, b: seq<byte>) returns (ok: bool)
      requires Valid()
      modifies this, buffer
      ensures Valid() && Wrote(a + b, ok)
    {
      ok := Append(a);
      if ok {
        ghost var mid := Contents();
        ok := Append(b);
        assert buffer[..old(pos)] == mid[..old(pos)];
        Associative(old(Contents()), a, b);
      }
    }

    method WriteSigned(v: int) returns (ok: bool)
      requires Valid() && Ranged(true, v)
      modifies this, buffer
      ensures Valid() && Wrote(SignedBytes(v), ok)
    {
      if -32 <= v <= 127 {
        ok := Append(BigEndian(1, Wrapped(1, v)));
      } else if -0x80 <= v <= 0x7f {
        ok := AppendBoth([0xD0], BigEndian(1, Wrapped(1, v)));
      } else if -0x8000 <= v <= 0x7fff {
        ok := AppendBoth([0xD1], BigEndian(2, Wrapped(2, v)));
      } else if -0x8000_0000 <= v <= 0x7fff_ffff {
        ok := AppendBoth([0xD2], BigEndian(4, Wrapped(4, v)));
      } else {
        ok := AppendBoth([0xD3], BigEndian(8, Wrapped(8, v)));
      }
    }

    method WriteUnsigned(v: int) returns (ok: bool)
      requires Valid() && Ranged(false, v)
      modifies this, buffer
      ensures Valid() && Wrote(UnsignedBytes(v), ok)
    {
      if v <= 127 {
        ok := Append([v]);
      } else if v <= 0xff {
        ok := AppendBoth([0xCC], BigEndian(1, v));
      } else if v <= 0xffff {
        ok := AppendBoth([0xCD], BigEndian(2, v));
      } else if v <= 0xffff_ffff {
        ok := AppendBoth([0xCE], BigEndian(4, v));
      } else {
        ok := AppendBoth([0xCF], BigEndian(8, v));
      }
    }

    method WriteInt(signed: bool, v: int) returns (ok: bool)
      requires Valid() && Ranged(signed, v)
      modifies this, buffer
      ensures Valid() && Wrote(IntBytes(signed, v), ok)
    {
      if signed {
        ok := WriteSigned(v);
      } else {
        ok := WriteUnsigned(v);
      }
    }

    /** lttng_msgpack_write_str: the string ends where strlen finds its end. */
    method WriteStr(mem: seq<byte>, ghost len: Option<nat>) returns (ok: bool)
      requires Valid() && IsOutput(Text(mem, len))
      modifies this, buffer
      ensures Valid() && Captured(Encoded(Text(mem, len)), ok)
    {
      var length := StrLen(mem);
      if length >= 0x1_0000 {
        return false;
      }
      if length <= 31 {
        ok := AppendBoth([0xA0 + length], mem[..length]);
      } else {
        ok := AppendThree([0xDA], BigEndian(2, length), mem[..length]);
      }
    }

    method AppendThree(a: seq<byte>, b: seq<byte>, c: seq<byte>) returns (ok: bool)
      requires Valid()
      modifies this, buffer
      ensures Valid() && Wrote(a + b + c, ok)
    {
      ok := AppendBoth(a, b);
      if ok {
        ghost var mid := Contents();
        ok := Append(c);
        assert buffer[..old(pos)] == mid[..old(pos)];
        Associative(old(Contents()), a + b, c);
      }
    }

    method BeginArray(count: nat) returns (ok: bool)
      requires Valid()
      modifies this, buffer
      ensures Valid() && (count < 0x1_0000 ==> Wrote(ArrayHeader(count), ok)) && (count >= 0x1_0000 ==> !ok)
      ensures old(pos) <= pos && buffer[..old(pos)] == old(Contents())
    {
      if count >= 0x1_0000 {
        return false;
      }
      if count <= 15 {
        ok := Append([0x90 + count]);
      } else {
        ok := AppendBoth([0xDC], BigEndian(2, count));
      }
    }

    method CaptureSequence(signed: bool, elems: seq<int>) returns (ok: bool)
      requires Valid() && IsOutput(Sequence(signed, elems))
      modifies this, buffer
      ensures Valid() && Captured(Encoded(Sequence(signed, elems)), ok)
    {
      ok := BeginArray(|elems|);
      if !ok {
        return;
      }
      ok := WriteInts(signed, elems, old(Contents()), ArrayHeader(|elems|));
    }

    /** The loop over the elements, behind what was there at the start and the header. */
    method WriteInts(signed: bool, elems: seq<int>, ghost start: seq<byte>, ghost header: seq<byte>) returns (ok: bool)
      requires Valid() && Contents() == start + header && forall k :: 0 <= k < |elems| ==> Ranged(signed, elems[k])
      modifies this, buffer
      ensures Valid() && ok == (|start| + |header + IntsBytes(signed, elems)| <= CAPTURE_BUFFER_SIZE)
      ensures ok ==> Contents() == start + (header + IntsBytes(signed, elems))
      ensures |start| <= pos && buffer[..|start|] == start
    {
      var i := 0;
      assert header + IntsBytes(signed, elems[..0]) == header;
      while i < |elems|
        invariant i <= |elems| && Valid() && Contents() == start + (header + IntsBytes(signed, elems[..i]))
      {
        ok := WriteNext(signed, elems[i], start, header + IntsBytes(signed, elems[..i]));
        IntsNext(header, signed, elems, i);
        i := i + 1;
        if !ok {
          IntsGrow(signed, elems, i);
          return;
        }
      }
      assert elems[..i] == elems;
      ok := true;
    }

    /** One more element behind what was there at the start and what was written since. */
    method WriteNext(signed: bool, v: int, ghost start: seq<byte>, ghost done: seq<byte>) returns (ok: bool)
      requires Valid() && Ranged(signed, v) && Contents() == start + done
      modifies this, buffer
      ensures Valid() && ok == (|start| + |done + IntBytes(signed, v)| <= CAPTURE_BUFFER_SIZE)
      ensures ok ==> Contents() == start + (done + IntBytes(signed, v))
      ensures |start| <= pos && buffer[..|start|] == start
    {
      Associative(start, done, IntBytes(signed, v));
      ok := WriteInt(signed, v);
      assert buffer[..|start|] == buffer[..old(pos)][..|start|] == start;
    }

    /** A capture succeeds exactly when it can be encoded and fits. */
    twostate predicate Captured(bytes: Option<seq<byte>>, ok: bool)
      requires old(Valid()) && Valid()
      reads this, buffer
    {
      && ok == (bytes.Some? && old(pos) + |bytes.value| <= CAPTURE_BUFFER_SIZE)
      && (ok ==> Contents() == old(Contents()) + bytes.value)
      && old(pos) <= pos && buffer[..old(pos)] == old(Contents())
    }

    method CaptureEnum(v: int) returns (ok: bool)
      requires Valid() && Ranged(true, v)
      modifies this, buffer
      ensures Valid() && Wrote([0x82] + StrBytes(TYPE) + StrBytes(ENUM) + StrBytes(VALUE) + SignedBytes(v), ok)
    {
      ok := AppendThree([0x82], StrBytes(TYPE), StrBytes(ENUM));
      if ok {
        ghost var mid := Contents();
        ok := AppendBoth(StrBytes(VALUE), SignedBytes(v));
        assert buffer[..old(pos)] == mid[..old(pos)];
        ghost var a, b, c := [0x82] + StrBytes(TYPE) + StrBytes(ENUM), StrBytes(VALUE), SignedBytes(v);
        Associative(a, b, c);
        Associative(old(Contents()), a, b + c);
      }
    }

    /** notification_append_capture. */
    method AppendCapture(o: Output) returns (ok: bool)
      requires Valid() && IsOutput(o)
      modifies this, buffer
      ensures Valid() && Captured(Encoded(o), ok)
    {
      match o
      case Integer(signed, v) =>
        ok := WriteInt(signed, v);
      case Enumeration(_, v) =>
        ok := CaptureEnum(Reinterpreted(v));
      case Text(mem, len) =>
        ok := WriteStr(mem, len);
      case Sequence(signed, elems) =>
        ok := CaptureSequence(signed, elems);
    }
  }

  lemma IntsNext(header: seq<byte>, signed: bool, vs: seq<int>, i: nat)
    requires i < |vs| && forall k :: 0 <= k < |vs| ==> Ranged(signed, vs[k])
    ensures header + IntsBytes(signed, vs[..i + 1]) == header + IntsBytes(signed, vs[..i]) + IntBytes(signed, vs[i])
  {
    assert vs[..i + 1][..i] == vs[..i];
    Associative(header, IntsBytes(signed, vs[..i]), IntBytes(signed, vs[i]));
  }

  /** The elements already written are no longer than all of them. */
  lemma {:induction false} IntsGrow(signed: bool, vs: seq<int>, n: nat)
    requires n <= |vs| && forall k :: 0 <= k < |vs| ==> Ranged(signed, vs[k])
    ensures |IntsBytes(signed, vs[..n])| <= |IntsBytes(signed, vs)|
    decreases |vs|
  {
    if n == |vs| {
      assert vs[..n] == vs;
    } else {
      IntsGrow(signed, vs[..|vs| - 1], n);
      assert vs[..|vs| - 1][..n] == vs[..n];
    }
  }

  /** lttng_event_notifier_notification_send: the buffer it sends, or none when it only records an
      error. The programs run only when capture evaluation is on. */
  method Send(num: nat, evalCapture: bool, programs: seq<Result>) returns (sent: Option<seq<byte>>)
    requires num < 0x1_0000 ==> Posed(num, programs, |programs|)
    ensures sent.Some? == HasRoom(num)
    ensures sent.Some? ==>
              var rs := if evalCapture then programs else [];
              sent.value == if num == 0 then [] else Filled(num, rs, |rs|)
  {
    if num == 0 {
      return Some([]);
    }
    var w := new Writer();
    var ok := w.BeginArray(num);
    if !ok || CAPTURE_BUFFER_SIZE - w.pos < num {
      return None;
    }
    var rs := if evalCapture then programs else [];
    AppendAll(w, num, rs);
    sent := Some(w.buffer[..w.pos]);
  }

  /** The loop over the programs. */
  method AppendAll(w: Writer, num: nat, rs: seq<Result>)
    requires w.Valid() && Posed(num, rs, |rs|) && HasRoom(num) && w.Contents() == ArrayHeader(num)
    modifies w, w.buffer
    ensures w.Valid() && w.Contents() == Filled(num, rs, |rs|)
  {
    var left, k := num, 0;
    while k < |rs|
      invariant k <= |rs| && left == Left(num, k)
      invariant w.Valid() && w.Contents() == Filled(num, rs, k)
    {
      k := k + 1;
      left := if left == 0 then MODULUS - 1 else left - 1;
      var _ := AppendOne(w, rs[k - 1], left);
    }
  }

  /** One round of the loop: the capture if it can be kept, and otherwise an empty value; while
      there is room left for the captures counted, writing that never fails. */
  method AppendOne(w: Writer, r: Result, left: nat) returns (ok: bool)
    requires w.Valid() && (r.Some? ==> IsOutput(r.value))
    modifies w, w.buffer
    ensures w.Valid() && w.Contents() == old(w.Contents()) + CaptureBytes(r, old(w.pos), left)
    ensures old(w.pos) + 1 + left <= CAPTURE_BUFFER_SIZE ==> ok
  {
    var save := w.pos;
    ok := false;
    if r.Some? {
      ok := w.AppendCapture(r.value);
    }
    if !ok || CAPTURE_BUFFER_SIZE - w.pos < left {
      w.pos := save;
      assert w.Contents() == old(w.Contents());
      ok := w.Append(NIL_BYTES);
      assert old(w.Contents()) + [] == old(w.Contents());
    }
  }
}
