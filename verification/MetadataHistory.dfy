/** What the metadata cache holds after a run, told by the operations of the run alone. */
module MetadataHistory {
  import opened Words
  import opened MetadataCache

  /** Operation j prints a string for which there was room or an allocation. */
  ghost predicate Printed(alloc: nat, ops: seq<Op>, j: nat)
    requires j < |ops| && Run(Initial(alloc), ops[..j]).Some?
  {
    var s := Run(Initial(alloc), ops[..j]).value;
    ops[j].Print? && (ops[j].ok || |s.text| + |ops[j].str| <= s.alloc)
  }

  /** The strings printed by the operations from the k-th on. */
  ghost function Strings(alloc: nat, ops: seq<Op>, k: nat): seq<seq<byte>>
    requires k <= |ops| && Run(Initial(alloc), ops).Some?
  {
    if k == |ops| then []
    else
      Strings(alloc, ops[..|ops| - 1], k) +
      (if Printed(alloc, ops, |ops| - 1) then [ops[|ops| - 1].str] else [])
  }

  /** The operations from the k-th on are those since the last regeneration, or all of them. */
  ghost predicate SinceRegeneration(ops: seq<Op>, k: nat) {
    && k <= |ops| && (k > 0 ==> ops[k - 1] == Regenerate)
    && forall j :: k <= j < |ops| ==> ops[j] != Regenerate
  }

  /** How many operations of the run are op. */
  function Count(ops: seq<Op>, op: Op): nat {
    if ops == [] then 0 else Count(ops[..|ops| - 1], op) + (if ops[|ops| - 1] == op then 1 else 0)
  }

  /** Operation j ends an outermost transaction, with e bytes in the cache. */
  ghost predicate Closes(alloc: nat, ops: seq<Op>, j: nat, e: nat) {
    && j < |ops| && ops[j] == End && Count(ops[..j], Begin) == Count(ops[..j], End) + 1
    && Run(Initial(alloc), ops[..j]).Some? && |Run(Initial(alloc), ops[..j]).value.text| == e
  }

  /** The open transactions are the begins without their end, and the streams are the opens. */
  lemma {:induction false} Balance(alloc: nat, ops: seq<Op>)
    requires Run(Initial(alloc), ops).Some?
    ensures var s := Run(Initial(alloc), ops).value;
            && s.producing == Count(ops, Begin) - Count(ops, End)
            && |s.streams| == |s.sent| == Count(ops, Open)
  {
    if ops != [] {
      Balance(alloc, ops[..|ops| - 1]);
      RunKeeps(alloc, ops);
    }
  }

  /** The text is exactly what was printed since the last regeneration, in order. */
  lemma {:induction false} TextHistory(alloc: nat, ops: seq<Op>, k: nat)
    requires Run(Initial(alloc), ops).Some? && SinceRegeneration(ops, k)
    ensures Run(Initial(alloc), ops).value.text == Concat(Strings(alloc, ops, k))
  {
    if k < |ops| {
      var before := ops[..|ops| - 1];
      assert SinceRegeneration(before, k);
      TextHistory(alloc, before, k);
      if Printed(alloc, ops, |ops| - 1) {
        ConcatAppend(Strings(alloc, before, k), ops[|ops| - 1].str);
      } else {
        assert Strings(alloc, ops, k) == Strings(alloc, before, k);
      }
    }
  }

  lemma ClosesEarlier(alloc: nat, ops: seq<Op>, j: nat, e: nat)
    requires ops != [] && j < |ops| - 1
    ensures Closes(alloc, ops, j, e) <==> Closes(alloc, ops[..|ops| - 1], j, e)
  {
    assert ops[..|ops| - 1][..j] == ops[..j];
  }

  /** The recorded ends are exactly the lengths of the text at the ends of the outermost
      transactions since the last regeneration. */
  lemma {:induction false} EndsHistory(alloc: nat, ops: seq<Op>, k: nat, e: nat)
    requires Run(Initial(alloc), ops).Some? && SinceRegeneration(ops, k)
    ensures e in Run(Initial(alloc), ops).value.ends <==> exists j :: k <= j < |ops| && Closes(alloc, ops, j, e)
  {
    if k < |ops| {
      var n := |ops| - 1;
      var before := ops[..n];
      assert SinceRegeneration(before, k);
      EndsHistory(alloc, before, k, e);
      Balance(alloc, before);
      forall j | k <= j < n ensures Closes(alloc, ops, j, e) <==> Closes(alloc, before, j, e) {
        ClosesEarlier(alloc, ops, j, e);
      }
      assert e in Run(Initial(alloc), ops).value.ends <==>
             e in Run(Initial(alloc), before).value.ends || Closes(alloc, ops, n, e);
    }
  }

  /** Between transactions a regeneration is possible; it empties the text and the recorded ends
      and sets every stream back, keeping the buffer and whatever a put-next has loaded. */
  lemma RegenerateClears(s: State)
    requires |s.sent| == |s.streams|
    ensures Do(s, Regenerate).Some? <==> s.producing == 0
    ensures Do(s, Regenerate).Some? ==>
              var r := Do(s, Regenerate).value;
              && r.text == [] && r.ends == {} && r.alloc == s.alloc && r.producing == 0
              && |r.streams| == |r.sent| == |s.streams|
              && forall i :: 0 <= i < |s.streams| ==>
                   && r.streams[i].mIn == 0 && r.streams[i].mOut == 0 && r.sent[i] == []
                   && r.streams[i].coherent == s.streams[i].coherent && r.streams[i].loaded == s.streams[i].loaded
  {
    if s.producing == 0 {
      var r := Do(s, Regenerate).value;
      forall i | 0 <= i < |s.streams| ensures r.streams[i] == Reset(s.streams[i]) {
      }
    }
  }

  /** A dump sets back exactly the stream it names, and only if that one had consumed all the
      text, whether or not a put-next is under way. */
  lemma DumpResets(s: State, i: nat)
    requires |s.sent| == |s.streams|
    ensures Do(s, Dump(i)).Some? <==> s.producing == 0 && i < |s.streams|
    ensures Do(s, Dump(i)).Some? ==>
              var r := Do(s, Dump(i)).value;
              && r.text == s.text && r.ends == s.ends && r.alloc == s.alloc && r.producing == 0
              && |r.streams| == |r.sent| == |s.streams|
              && (forall j :: 0 <= j < |s.streams| && j != i ==> r.streams[j] == s.streams[j] && r.sent[j] == s.sent[j])
              && (s.streams[i].mOut < |s.text| || s.streams[i].mOut > |s.text| ==>
                    r.streams[i] == s.streams[i] && r.sent[i] == s.sent[i])
              && (s.streams[i].mOut == |s.text| ==>
                    && r.streams[i] == Stream(0, 0, s.streams[i].coherent, s.streams[i].loaded)
                    && r.sent[i] == [])
  {
  }

  /** A stream opens at the start of the text. After an output that had something to hand out, the
      stream is coherent exactly when it has been handed the whole text. */
  lemma OutputCoherence(s: State, i: nat, room: nat, ok: bool)
    requires Inv(s) && Do(s, Output(i, room, ok)).Some?
    ensures Do(s, Open).Some? && Ax(Do(s, Open).value.streams) == Stream(0, 0, false, None)
    ensures var st, r := s.streams[i], Do(s, Output(i, room, ok)).value.streams[i];
            if st.mIn == st.mOut && st.mIn < |s.text| then r.coherent <==> r.mIn == |s.text| else r == st
    ensures var r := Do(s, Output(i, room, ok)).value;
            !ok ==> r.sent == s.sent && forall k :: 0 <= k < |s.streams| ==> r.streams[k].mIn == s.streams[k].mIn
  {
    assert Delivered(s, i);
  }

  function Ax<T>(s: seq<T>): T
    requires s != []
  {
    s[|s| - 1]
  }

  /** The buffer only grows for a string that does not fit, then at least doubles, and never
      exceeds twice the text that made it grow. */
  lemma GrowthBounded(s: State, str: seq<byte>, ok: bool)
    requires |s.text| <= s.alloc && Do(s, Print(str, ok)).Some?
    ensures var r := Do(s, Print(str, ok)).value;
            && |r.text| <= r.alloc
            && (r.alloc != s.alloc <==> ok && |s.text| + |str| > s.alloc)
            && (r.alloc != s.alloc ==> 2 * s.alloc <= r.alloc <= 2 * |r.text|)
  {
  }

  /** Over a run the buffer is the first one or at most twice a text that the cache has held. */
  lemma {:induction false} BufferHistory(alloc: nat, ops: seq<Op>)
    requires Run(Initial(alloc), ops).Some?
    ensures var size := Run(Initial(alloc), ops).value.alloc;
            size == alloc ||
            exists j :: 0 <= j <= |ops| && Run(Initial(alloc), ops[..j]).Some? &&
              size <= 2 * |Run(Initial(alloc), ops[..j]).value.text|
  {
    if ops != [] {
      var n := |ops| - 1;
      var before := ops[..n];
      BufferHistory(alloc, before);
      RunKeeps(alloc, before);
      var s, r := Run(Initial(alloc), before).value, Run(Initial(alloc), ops).value;
      if r.alloc != s.alloc {
        GrowthBounded(s, ops[n].str, ops[n].ok);
        assert ops[..|ops|] == ops;
      } else if r.alloc != alloc {
        var j :| 0 <= j <= n && Run(Initial(alloc), before[..j]).Some? &&
                 s.alloc <= 2 * |Run(Initial(alloc), before[..j]).value.text|;
        assert before[..j] == ops[..j];
      }
    }
  }
}
