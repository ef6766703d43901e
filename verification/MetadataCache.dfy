/** The metadata cache and the streams that read it: transactions that append, packets that
    carry the text out, and the operations that reset the readers. */
module MetadataCache {
  import opened Words

  /** struct lttng_metadata_stream: bytes handed to packets, bytes consumed, the flag that tells
      a reader it holds whole transactions, and the position that a put-next under way, which
      holds no lock, has loaded and not yet stored. */
  datatype Stream = Stream(mIn: nat, mOut: nat, coherent: bool, loaded: Option<nat>)

  /** The cache and its streams. sent holds each stream's packets since its last reset; ends
      holds the positions at which an outermost transaction ended since the last regeneration. */
  datatype State = State(
    text: seq<byte>, alloc: nat, producing: nat, streams: seq<Stream>,
    sent: seq<seq<seq<byte>>>, ends: set<nat>)

  /** The operations; room is the space left in the packet, ok whether an allocation or a
      reservation succeeds. */
  datatype Op =
    | Begin | End
    | Print(str: seq<byte>, ok: bool)
    | Open
    | Output(i: nat, room: nat, ok: bool)
    | PutLoad(i: nat)
    | PutStore(i: nat)
    | Dump(i: nat)
    | Regenerate

  function Min(a: nat, b: nat): nat { if a <= b then a else b }
  function Max(a: nat, b: nat): nat { if a >= b then a else b }

  /** Growth of the cache buffer in lttng_metadata_print_len. */
  function GrownAlloc(alloc: nat, written: nat, len: nat): (n: nat)
    ensures n >= alloc && n >= Min(written, alloc) + len
  {
    if written + len > alloc then Max(alloc + len, 2 * alloc) else alloc
  }

  /** lttng_metadata_output_channel on stream i. */
  function Emit(s: State, i: nat, room: nat, ok: bool): State
    requires i < |s.streams| && |s.sent| == |s.streams|
  {
    var st := s.streams[i];
    if st.mIn != st.mOut || |s.text| <= st.mIn then s
    else if !ok then s.(streams := s.streams[i := st.(coherent := false)])
    else
      var len := |s.text| - st.mIn;
      var n := Min(room, len);
      s.(streams := s.streams[i := st.(mIn := st.mIn + n, coherent := n == len)],
         sent := s.sent[i := s.sent[i] + [s.text[st.mIn..st.mIn + n]]])
  }

  function Reset(st: Stream): Stream { st.(mIn := 0, mOut := 0) }

  function ResetAll(ss: seq<Stream>): (r: seq<Stream>)
    ensures |r| == |ss| && forall k :: 0 <= k < |ss| ==> r[k] == Reset(ss[k])
  {
    if ss == [] then [] else [Reset(ss[0])] + ResetAll(ss[1..])
  }

  function NoPackets(n: nat): (r: seq<seq<seq<byte>>>)
    ensures |r| == n && forall k :: 0 <= k < n ==> r[k] == []
  {
    if n == 0 then [] else [[]] + NoPackets(n - 1)
  }

  /** One operation; None when it is not possible, in particular while the cache lock, taken by
      the outermost begin and released by the matching end, keeps it waiting. */
  function Do(s: State, op: Op): Option<State> {
    if |s.sent| != |s.streams| then None
    else
      match op
      case Begin => Some(s.(producing := s.producing + 1))
      case End =>
        if s.producing == 0 then None
        else Some(s.(producing := s.producing - 1, ends := if s.producing == 1 then s.ends + {|s.text|} else s.ends))
      case Print(str, ok) =>
        if s.producing == 0 then None
        else if |s.text| + |str| > s.alloc && !ok then Some(s)
        else Some(s.(text := s.text + str, alloc := GrownAlloc(s.alloc, |s.text|, |str|)))
      case Open => Some(s.(streams := s.streams + [Stream(0, 0, false, None)], sent := s.sent + [[]]))
      case Output(i, room, ok) =>
        if s.producing > 0 || i >= |s.streams| then None else Some(Emit(s, i, room, ok))
      case PutLoad(i) =>
        if i >= |s.streams| || s.streams[i].loaded.Some? then None
        else Some(s.(streams := s.streams[i := s.streams[i].(loaded := Some(s.streams[i].mIn))]))
      case PutStore(i) =>
        if i >= |s.streams| || s.streams[i].loaded.None? then None
        else Some(s.(streams := s.streams[i := s.streams[i].(mOut := s.streams[i].loaded.value, loaded := None)]))
      case Dump(i) =>
        if s.producing > 0 || i >= |s.streams| then None
        else if s.streams[i].mOut != |s.text| then Some(s)
        else Some(s.(streams := s.streams[i := Reset(s.streams[i])], sent := s.sent[i := []]))
      case Regenerate =>
        if s.producing > 0 then None
        else Some(s.(text := [], streams := ResetAll(s.streams), sent := NoPackets(|s.streams|), ends := {}))
  }

  function Concat(ps: seq<seq<byte>>): seq<byte> {
    if ps == [] then [] else Concat(ps[..|ps| - 1]) + ps[|ps| - 1]
  }

  /** The packets since the last reset are the text up to mIn. */
  ghost predicate Delivered(s: State, i: nat)
    requires i < |s.streams| && |s.sent| == |s.streams|
  {
    && s.streams[i].mIn <= |s.text|
    && Concat(s.sent[i]) == s.text[..s.streams[i].mIn]
  }

  /** A coherent stream stands at the start or at the end of a whole outermost transaction. */
  ghost predicate Coherent(s: State, i: nat)
    requires i < |s.streams|
  {
    s.streams[i].coherent ==> s.streams[i].mIn == 0 || s.streams[i].mIn in s.ends
  }

  ghost predicate Inv(s: State) {
    && |s.sent| == |s.streams| && |s.text| <= s.alloc
    && (forall i :: 0 <= i < |s.streams| ==> Delivered(s, i) && Coherent(s, i))
    && (s.producing == 0 ==> s.text == [] || |s.text| in s.ends)
    && (forall e :: e in s.ends ==> e <= |s.text|)
  }

  lemma ConcatAppend(ps: seq<seq<byte>>, p: seq<byte>)
    ensures Concat(ps + [p]) == Concat(ps) + p
  {
    assert (ps + [p])[..|ps|] == ps;
  }

  lemma EmitKeeps(s: State, i: nat, room: nat, ok: bool)
    requires Inv(s) && s.producing == 0 && i < |s.streams|
    ensures Inv(Emit(s, i, room, ok))
  {
    var s', st := Emit(s, i, room, ok), s.streams[i];
    if st.mIn == st.mOut && st.mIn < |s.text| && ok {
      var n := Min(room, |s.text| - st.mIn);
      ConcatAppend(s.sent[i], s.text[st.mIn..st.mIn + n]);
      assert s.text[..st.mIn] + s.text[st.mIn..st.mIn + n] == s.text[..st.mIn + n];
    }
    forall k | 0 <= k < |s'.streams| ensures Delivered(s', k) && Coherent(s', k) {
      assert Delivered(s, k) && Coherent(s, k);
    }
  }

  /** Every operation keeps every stream's delivery and coherence. */
  lemma StepKeeps(s: State, op: Op)
    requires Inv(s) && Do(s, op).Some?
    ensures Inv(Do(s, op).value)
  {
    var s' := Do(s, op).value;
    if op.Output? {
      EmitKeeps(s, op.i, op.room, op.ok);
    } else {
      forall k | 0 <= k < |s'.streams| ensures Delivered(s', k) && Coherent(s', k) {
        if k < |s.streams| {
          assert Delivered(s, k) && Coherent(s, k);
          if op.Print? {
            assert s'.text[..s.streams[k].mIn] == s.text[..s.streams[k].mIn];
          }
        }
      }
    }
  }

  function Run(s: State, ops: seq<Op>): Option<State> {
    if ops == [] then Some(s)
    else match Run(s, ops[..|ops| - 1]) case None => None case Some(s') => Do(s', ops[|ops| - 1])
  }

  function Initial(alloc: nat): State { State([], alloc, 0, [], [], {}) }

  /** Over any interleaving: no byte of the text is lost, repeated or reordered on its way to
      a stream's packets, and a coherent stream holds whole transactions only. */
  lemma {:induction false} RunKeeps(alloc: nat, ops: seq<Op>)
    requires Run(Initial(alloc), ops).Some?
    ensures Inv(Run(Initial(alloc), ops).value)
  {
    if ops != [] {
      RunKeeps(alloc, ops[..|ops| - 1]);
      StepKeeps(Run(Initial(alloc), ops[..|ops| - 1]).value, ops[|ops| - 1]);
    }
  }

  /** What was consumed, or is about to be recorded as consumed, had been handed out. */
  ghost predicate Ordered(s: State, i: nat)
    requires i < |s.streams|
  {
    var st := s.streams[i];
    st.mOut <= st.mIn && (st.loaded.Some? ==> st.loaded.value <= st.mIn)
  }

  /** The operation sets the positions of stream i back to zero. */
  predicate Resets(s: State, op: Op, i: nat)
    requires i < |s.streams|
  {
    op.Regenerate? || (op == Dump(i) && s.streams[i].mOut == |s.text|)
  }

  /** The positions stay ordered exactly until a reset falls between the load and the store of a
      put-next that found something consumed. */
  lemma OrderExactly(s: State, op: Op, i: nat)
    requires i < |s.streams| && Ordered(s, i) && Do(s, op).Some?
    ensures i < |Do(s, op).value.streams|
    ensures Ordered(Do(s, op).value, i) <==>
            !(Resets(s, op, i) && s.streams[i].loaded.Some? && s.streams[i].loaded.value > 0)
  {
    var s' := Do(s, op).value;
    if op.Regenerate? {
      assert s'.streams[i] == Reset(s.streams[i]);
    }
  }

  /** At some step of the run stream i is reset while a put-next holds a position beyond zero. */
  ghost predicate Interrupted(alloc: nat, ops: seq<Op>, i: nat) {
    if ops == [] then false
    else
      || Interrupted(alloc, ops[..|ops| - 1], i)
      || (var m := Run(Initial(alloc), ops[..|ops| - 1]);
          && m.Some? && i < |m.value.streams| && Resets(m.value, ops[|ops| - 1], i)
          && m.value.streams[i].loaded.Some? && m.value.streams[i].loaded.value > 0)
  }

  lemma OrderedNext(m: State, op: Op, i: nat)
    requires Do(m, op).Some?
    requires i < |m.streams| ==>
               && Ordered(m, i)
               && !(Resets(m, op, i) && m.streams[i].loaded.Some? && m.streams[i].loaded.value > 0)
    ensures i < |Do(m, op).value.streams| ==> Ordered(Do(m, op).value, i)
  {
    if i < |m.streams| {
      OrderExactly(m, op, i);
    }
  }

  /** In every run in which no put-next is interrupted so, consumed, delivered, written and
      allocated are in order. */
  lemma {:induction false} RunOrdered(alloc: nat, ops: seq<Op>, i: nat)
    requires Run(Initial(alloc), ops).Some? && !Interrupted(alloc, ops, i)
    ensures var s := Run(Initial(alloc), ops).value;
            i < |s.streams| ==> Ordered(s, i) && s.streams[i].mIn <= |s.text| <= s.alloc
  {
    if ops != [] {
      RunOrdered(alloc, ops[..|ops| - 1], i);
      OrderedNext(Run(Initial(alloc), ops[..|ops| - 1]).value, ops[|ops| - 1], i);
    }
    WithinText(alloc, ops, i);
  }

  lemma WithinText(alloc: nat, ops: seq<Op>, i: nat)
    requires Run(Initial(alloc), ops).Some?
    ensures var s := Run(Initial(alloc), ops).value; i < |s.streams| ==> s.streams[i].mIn <= |s.text| <= s.alloc
  {
    RunKeeps(alloc, ops);
    var s := Run(Initial(alloc), ops).value;
    if i < |s.streams| {
      assert Delivered(s, i);
    }
  }

  /** After such a reset the store leaves the stream unable to receive anything. */
  lemma OvertakenStreamStalls(s: State, op: Op, i: nat, room: nat, ok: bool)
    requires i < |s.streams| && Do(s, op).Some? && Resets(s, op, i)
    requires s.streams[i].loaded.Some? && s.streams[i].loaded.value > 0
    ensures var r := Do(Do(s, op).value, PutStore(i));
            r.Some? && r.value.streams[i].mIn < r.value.streams[i].mOut && Emit(r.value, i, room, ok) == r.value
  {
    assert Do(s, op).value.streams[i] == Reset(s.streams[i]);
  }

  /** Output followed by a whole put-next. */
  function Serve(s: State, i: nat, room: nat): Option<State> {
    match Do(s, Output(i, room, true))
    case None => None
    case Some(a) => match Do(a, PutLoad(i)) case None => None case Some(b) => Do(b, PutStore(i))
  }

  function ServeAll(s: State, i: nat, rooms: seq<nat>): Option<State> {
    if rooms == [] then Some(s)
    else match ServeAll(s, i, rooms[..|rooms| - 1]) case None => None case Some(m) => Serve(m, i, rooms[|rooms| - 1])
  }

  function Total(rooms: seq<nat>): nat { if rooms == [] then 0 else Total(rooms[..|rooms| - 1]) + rooms[|rooms| - 1] }

  /** A stream that has consumed what it was given. */
  ghost predicate Idle(s: State, i: nat) {
    && Inv(s) && s.producing == 0 && i < |s.streams|
    && s.streams[i].mIn == s.streams[i].mOut && s.streams[i].loaded.None?
  }

  /** The stream has moved forward by as much as there was room for, and is coherent if it
      reached the end of the text. */
  ghost predicate Drained(s: State, r: State, i: nat, room: nat)
    requires Idle(s, i)
  {
    && Idle(r, i) && r.text == s.text
    && r.streams[i].mIn == Min(|s.text|, s.streams[i].mIn + room)
    && (s.streams[i].mIn < |s.text| <= s.streams[i].mIn + room ==> r.streams[i].coherent)
  }

  lemma ServeDrains(s: State, i: nat, room: nat)
    requires Idle(s, i)
    ensures Serve(s, i, room).Some? && Drained(s, Serve(s, i, room).value, i, room)
    ensures s.streams[i].mIn == |s.text| ==> Serve(s, i, room).value.streams[i].coherent == s.streams[i].coherent
  {
    assert Delivered(s, i);
    var a := Do(s, Output(i, room, true)).value;
    StepKeeps(s, Output(i, room, true));
    var b := Do(a, PutLoad(i)).value;
    StepKeeps(a, PutLoad(i));
    StepKeeps(b, PutStore(i));
  }

  /** However the packets are sized, an idle stream receives the rest of the text in order, and
      is coherent with all of it once the packets have had room for it. */
  lemma {:induction false} ServeAllDrains(s: State, i: nat, rooms: seq<nat>)
    requires Idle(s, i)
    ensures ServeAll(s, i, rooms).Some? && Drained(s, ServeAll(s, i, rooms).value, i, Total(rooms))
  {
    if rooms == [] {
      assert Delivered(s, i);
    } else {
      ServeAllDrains(s, i, rooms[..|rooms| - 1]);
      ServeDrains(ServeAll(s, i, rooms[..|rooms| - 1]).value, i, rooms[|rooms| - 1]);
    }
  }

  /** struct lttng_metadata_cache with the streams on its list. */
  class Cache {
    var data: array<byte>
    var written: nat
    var producing: nat
    var streams: seq<Stream>
    ghost var sent: seq<seq<seq<byte>>>
    ghost var ends: set<nat>

    ghost predicate Valid()
      reads this
    {
      written <= data.Length && |sent| == |streams|
    }

    ghost function View(): State
      requires Valid()
      reads this, data
    {
      State(data[..written], data.Length, producing, streams, sent, ends)
    }

    constructor (alloc: nat)
      ensures Valid() && fresh(data) && View() == Initial(alloc)
    {
      data := new byte[alloc](_ => 0);
      written, producing, streams := 0, 0, [];
      sent, ends := [], {};
    }

    method MetadataBegin()
      requires Valid()
      modifies this
      ensures Valid() && data == old(data) && Do(old(View()), Begin) == Some(View())
    {
      producing := producing + 1;
    }

    method MetadataEnd()
      requires Valid() && producing > 0
      modifies this
      ensures Valid() && data == old(data) && Do(old(View()), End) == Some(View())
    {
      producing := producing - 1;
      if producing == 0 {
        ends := ends + {written};
      }
    }

    method PrintLen(str: seq<byte>, ok: bool) returns (done: bool)
      requires Valid() && producing > 0
      modifies this, data
      ensures Valid() && (data == old(data) || fresh(data))
      ensures Do(old(View()), Print(str, ok)) == Some(View())
      ensures done == (ok || old(written) + |str| <= old(data.Length))
    {
      if written + |str| > data.Length {
        if !ok {
          return false;
        }
        var size := Max(data.Length + |str|, 2 * data.Length);
        var tmp := new byte[size](_ => 0);
        forall k | 0 <= k < data.Length { tmp[k] := data[k]; }
        data := tmp;
      }
      assert data[..written] == old(data[..written]);
      forall k | 0 <= k < |str| { data[written + k] := str[k]; }
      assert data[..written + |str|] == old(data[..written]) + str;
      written := written + |str|;
      return true;
    }

    method OpenStream()
      requires Valid()
      modifies this
      ensures Valid() && data == old(data) && Do(old(View()), Open) == Some(View())
    {
      streams := streams + [Stream(0, 0, false, None)];
      sent := sent + [[]];
    }

    method OutputChannel(i: nat, room: nat, ok: bool) returns (packet: Option<seq<byte>>, coherent: bool)
      requires Valid() && producing == 0 && i < |streams|
      modifies this
      ensures Valid() && data == old(data) && Do(old(View()), Output(i, room, ok)) == Some(View())
      ensures coherent == streams[i].coherent
      ensures sent == if packet.Some? then old(sent)[i := old(sent)[i] + [packet.value]] else old(sent)
    {
      packet := None;
      var st := streams[i];
      if st.mIn == st.mOut && written > st.mIn {
        var len := written - st.mIn;
        var reserved := Min(room, len);
        if !ok {
          streams := streams[i := st.(coherent := false)];
        } else {
          var bytes := data[st.mIn..st.mIn + reserved];
          assert bytes == data[..written][st.mIn..st.mIn + reserved];
          streams := streams[i := st.(mIn := st.mIn + reserved, coherent := reserved >= len)];
          packet, sent := Some(bytes), sent[i := sent[i] + [bytes]];
        }
      }
      coherent := streams[i].coherent;
    }

    method PutNext(i: nat)
      requires Valid() && i < |streams| && streams[i].loaded.None?
      modifies this
      ensures Valid() && data == old(data)
      ensures var m := Do(old(View()), PutLoad(i)); m.Some? && Do(m.value, PutStore(i)) == Some(View())
    {
      streams := streams[i := streams[i].(mOut := streams[i].mIn)];
      assert streams == old(streams)[i := old(streams)[i].(loaded := Some(old(streams)[i].mIn))][i := streams[i]];
    }

    method CacheDump(i: nat) returns (done: bool)
      requires Valid() && producing == 0 && i < |streams|
      modifies this
      ensures Valid() && data == old(data) && Do(old(View()), Dump(i)) == Some(View())
      ensures done == (old(streams)[i].mOut == written)
    {
      if streams[i].mOut != written {
        return false;
      }
      streams := streams[i := streams[i].(mIn := 0, mOut := 0)];
      sent := sent[i := []];
      return true;
    }

    method MetadataRegenerate()
      requires Valid() && producing == 0
      modifies this, data
      ensures Valid() && data == old(data) && Do(old(View()), Regenerate) == Some(View())
    {
      forall k | 0 <= k < data.Length { data[k] := 0; }
      written := 0;
      var i := 0;
      while i < |streams|
        invariant i <= |streams| == |old(streams)|
        invariant forall k :: 0 <= k < |streams| ==>
                    streams[k] == if k < i then Reset(old(streams)[k]) else old(streams)[k]
        invariant data == old(data) && written == 0 && producing == 0
      {
        streams := streams[i := streams[i].(mIn := 0, mOut := 0)];
        i := i + 1;
      }
      assert streams == ResetAll(old(streams));
      sent, ends := NoPackets(|streams|), {};
    }
  }
}
