/** Modular counters split into per-CPU cells and a channel cell, added to by any interleaving
    of compare-and-swap attempts. */
module Counters {
  import opened Words

  datatype Width = W8 | W16 | W32 | W64

  function Half(w: Width): (h: int)
    ensures h > 0
  {
    match w case W8 => 0x80 case W16 => 0x8000 case W32 => 0x8000_0000 case W64 => 0x8000_0000_0000_0000
  }

  function Modulus(w: Width): int { 2 * Half(w) }

  /** Conversion to the signed type of the cell. */
  function Wrap(w: Width, x: int): (r: int)
    ensures -Half(w) <= r < Half(w)
    ensures IsMultiple(w, x - r)
  {
    var k := (x + Half(w)) / Modulus(w);
    var r := (x + Half(w)) % Modulus(w) - Half(w);
    assert x - r == Times(w, k);
    r
  }

  function Times(w: Width, k: int): int { Modulus(w) * k }

  ghost predicate IsMultiple(w: Width, x: int) { exists k :: x == Times(w, k) }

  lemma MultiplesAdd(w: Width, x: int, y: int)
    requires IsMultiple(w, x) && IsMultiple(w, y)
    ensures IsMultiple(w, x + y) && IsMultiple(w, x - y)
  {
    var j :| x == Times(w, j);
    var k :| y == Times(w, k);
    assert x + y == Times(w, j + k) && x - y == Times(w, j - k);
  }

  /** What is moved to the channel cell once a per-CPU cell has gone past the step. */
  function MoveSum(step: int, n: int): int {
    if step == 0 then 0 else if n > step then step / 2 else if n < -step then -(step / 2) else 0
  }

  /** The new value of a per-CPU cell, and the remainder to move. */
  function CpuNext(w: Width, step: int, old_: int, v: int): (int, int) {
    var n := Wrap(w, old_ + v);
    var move := MoveSum(step, n);
    (Wrap(w, n - move), move)
  }

  // ---- the protocol ----

  /** A thread inside lttng_counter_add: before a per-CPU attempt with the value it has seen,
      holding a remainder, or before a channel attempt. */
  datatype Thread =
    | Idle
    | AtCpu(cpu: nat, v: int, seen: int)
    | Holding(rem: int)
    | AtChannel(rem: int, seen: int)

  /** total is the sum of the increments whose per-CPU attempt has succeeded. */
  datatype State = State(cells: seq<int>, channel: int, threads: seq<Thread>, total: int)

  datatype Action = Begin(t: nat, cpu: nat, v: int) | TryCpu(t: nat) | LoadChannel(t: nat) | TryChannel(t: nat)

  /** One atomic step of one thread; an attempt that finds another value than it saw reloads. */
  function Do(w: Width, step: int, s: State, a: Action): Option<State> {
    if a.t >= |s.threads| then None
    else
      match (a, s.threads[a.t])
      case (Begin(t, cpu, v), Idle) =>
        if cpu >= |s.cells| then None
        else Some(s.(threads := s.threads[t := AtCpu(cpu, v, s.cells[cpu])]))
      case (TryCpu(t), AtCpu(cpu, v, seen)) =>
        if cpu >= |s.cells| then None
        else if s.cells[cpu] != seen then Some(s.(threads := s.threads[t := AtCpu(cpu, v, s.cells[cpu])]))
        else
          var (n, move) := CpuNext(w, step, seen, v);
          Some(State(s.cells[cpu := n], s.channel,
                     s.threads[t := if move != 0 then Holding(move) else Idle], s.total + v))
      case (LoadChannel(t), Holding(rem)) => Some(s.(threads := s.threads[t := AtChannel(rem, s.channel)]))
      case (TryChannel(t), AtChannel(rem, seen)) =>
        if s.channel != seen then Some(s.(threads := s.threads[t := AtChannel(rem, s.channel)]))
        else Some(s.(channel := Wrap(w, seen + rem), threads := s.threads[t := Idle]))
      case _ => None
  }

  function Sum(s: seq<int>): int { if s == [] then 0 else Sum(s[..|s| - 1]) + s[|s| - 1] }

  function Pending(t: Thread): int {
    match t case Holding(r) => r case AtChannel(r, _) => r case _ => 0
  }

  /** Remainders in flight. */
  function InFlight(ts: seq<Thread>): int {
    if ts == [] then 0 else InFlight(ts[..|ts| - 1]) + Pending(ts[|ts| - 1])
  }

  lemma {:induction false} SumUpdate(s: seq<int>, i: nat, x: int)
    requires i < |s|
    ensures Sum(s[i := x]) == Sum(s) - s[i] + x
  {
    if i < |s| - 1 {
      SumUpdate(s[..|s| - 1], i, x);
      assert s[i := x][..|s| - 1] == s[..|s| - 1][i := x];
    } else {
      assert s[i := x][..|s| - 1] == s[..|s| - 1];
    }
  }

  lemma {:induction false} InFlightUpdate(ts: seq<Thread>, i: nat, t: Thread)
    requires i < |ts|
    ensures InFlight(ts[i := t]) == InFlight(ts) - Pending(ts[i]) + Pending(t)
  {
    if i < |ts| - 1 {
      InFlightUpdate(ts[..|ts| - 1], i, t);
      assert ts[i := t][..|ts| - 1] == ts[..|ts| - 1][i := t];
    } else {
      assert ts[i := t][..|ts| - 1] == ts[..|ts| - 1];
    }
  }

  /** All cells and the remainders in flight add up to the total, modulo the width. */
  ghost predicate Conserved(w: Width, s: State) {
    IsMultiple(w, Balance(s))
  }

  function Balance(s: State): int { Sum(s.cells) + s.channel + InFlight(s.threads) - s.total }

  lemma StepConserves(w: Width, step: int, s: State, a: Action)
    requires Conserved(w, s) && Do(w, step, s, a).Some?
    ensures Conserved(w, Do(w, step, s, a).value)
  {
    var s' := Do(w, step, s, a).value;
    InFlightUpdate(s.threads, a.t, s'.threads[a.t]);
    assert s'.threads == s.threads[a.t := s'.threads[a.t]];
    var th := s.threads[a.t];
    if a.TryCpu? && s.cells[th.cpu] == th.seen {
      SumUpdate(s.cells, th.cpu, CpuNext(w, step, th.seen, th.v).0);
      CpuNextConserves(w, step, th.seen, th.v);
      MultiplesAdd(w, Balance(s),
                   th.seen + th.v - CpuNext(w, step, th.seen, th.v).0 - CpuNext(w, step, th.seen, th.v).1);
    } else if a.TryChannel? && s.channel == th.seen {
      MultiplesAdd(w, Balance(s), (th.seen + th.rem) - Wrap(w, th.seen + th.rem));
    }
  }

  /** A per-CPU attempt splits the sum between the cell and the remainder. */
  lemma CpuNextConserves(w: Width, step: int, c: int, v: int)
    ensures IsMultiple(w, c + v - CpuNext(w, step, c, v).0 - CpuNext(w, step, c, v).1)
  {
    var n := Wrap(w, c + v);
    var move := MoveSum(step, n);
    MultiplesAdd(w, (c + v) - n, (n - move) - Wrap(w, n - move));
  }

  /** A run is any sequence of steps the threads can take. */
  function Run(w: Width, step: int, s: State, acts: seq<Action>): Option<State> {
    if acts == [] then Some(s)
    else
      match Run(w, step, s, acts[..|acts| - 1])
      case None => None
      case Some(s') => Do(w, step, s', acts[|acts| - 1])
  }

  predicate IsInitial(s: State) {
    && (forall k :: 0 <= k < |s.cells| ==> s.cells[k] == 0)
    && (forall k :: 0 <= k < |s.threads| ==> s.threads[k].Idle?)
    && s.channel == 0 && s.total == 0
  }

  lemma {:induction false} QuietSums(cells: seq<int>, ts: seq<Thread>)
    ensures (forall k :: 0 <= k < |cells| ==> cells[k] == 0) ==> Sum(cells) == 0
    ensures (forall k :: 0 <= k < |ts| ==> ts[k].Idle?) ==> InFlight(ts) == 0
    decreases |cells| + |ts|
  {
    if cells != [] {
      QuietSums(cells[..|cells| - 1], ts);
    } else if ts != [] {
      QuietSums(cells, ts[..|ts| - 1]);
    }
  }

  /** Conservation over every interleaving. */
  lemma {:induction false} RunConserves(w: Width, step: int, s: State, acts: seq<Action>)
    requires IsInitial(s) && Run(w, step, s, acts).Some?
    ensures Conserved(w, Run(w, step, s, acts).value)
  {
    if acts == [] {
      QuietSums(s.cells, s.threads);
      assert 0 == Times(w, 0);
    } else {
      RunConserves(w, step, s, acts[..|acts| - 1]);
      StepConserves(w, step, Run(w, step, s, acts[..|acts| - 1]).value, acts[|acts| - 1]);
    }
  }

  /** With every thread idle, the cells alone hold the total, modulo the width. */
  lemma QuiescentSum(w: Width, step: int, s: State, acts: seq<Action>)
    requires IsInitial(s) && Run(w, step, s, acts).Some?
    requires forall k :: 0 <= k < |Run(w, step, s, acts).value.threads| ==> Run(w, step, s, acts).value.threads[k].Idle?
    ensures var e := Run(w, step, s, acts).value; IsMultiple(w, Sum(e.cells) + e.channel - e.total)
  {
    RunConserves(w, step, s, acts);
    QuietSums([], Run(w, step, s, acts).value.threads);
  }

  // ---- bound on the per-CPU cells ----

  ghost predicate Within(step: int, s: State) {
    forall k :: 0 <= k < |s.cells| ==> -step <= s.cells[k] <= step
  }

  ghost predicate UnitSteps(s: State) {
    forall k :: 0 <= k < |s.threads| && s.threads[k].AtCpu? ==> s.threads[k].v == 1 || s.threads[k].v == -1
  }

  lemma UnitStaysWithin(w: Width, step: int, c: int, v: int)
    requires 2 <= step < Half(w) && -step <= c <= step && (v == 1 || v == -1)
    ensures -step <= CpuNext(w, step, c, v).0 <= step
  {
    WrapInRange(w, c + v);
    var n := Wrap(w, c + v);
    WrapInRange(w, n - MoveSum(step, n));
  }

  /** Wrapping leaves values of the range alone, and the two just outside go to the other end. */
  lemma WrapInRange(w: Width, x: int)
    requires -Half(w) - 1 <= x <= Half(w)
    ensures Wrap(w, x) == if x == Half(w) then -Half(w) else if x < -Half(w) then Half(w) - 1 else x
  {}

  /** One unit increment of a cell within the step leaves it within the step. */
  ghost predicate KeepsWithin(w: Width, step: int, c: int, v: int) {
    -step <= c <= step && (v == 1 || v == -1) ==> -step <= CpuNext(w, step, c, v).0 <= step
  }

  lemma StepOneEscapes(w: Width)
    ensures !KeepsWithin(w, 1, 1, 1)
  {
    WrapInRange(w, 2);
    assert CpuNext(w, 1, 1, 1).0 == 2;
  }

  /** With unit increments a sum step keeps every per-CPU cell within it exactly when the step
      is at least 2; a step of 1 moves nothing. */
  lemma UnitBoundExact(w: Width, step: int)
    requires 1 <= step < Half(w)
    ensures (forall c, v :: KeepsWithin(w, step, c, v)) <==> step >= 2
  {
    if step >= 2 {
      forall c, v ensures KeepsWithin(w, step, c, v) {
        if -step <= c <= step && (v == 1 || v == -1) {
          UnitStaysWithin(w, step, c, v);
        }
      }
    } else {
      StepOneEscapes(w);
    }
  }

  lemma {:induction false} RunStaysWithin(w: Width, step: int, s: State, acts: seq<Action>)
    requires IsInitial(s) && 2 <= step < Half(w) && Run(w, step, s, acts).Some?
    requires forall k :: 0 <= k < |acts| && acts[k].Begin? ==> acts[k].v == 1 || acts[k].v == -1
    ensures Within(step, Run(w, step, s, acts).value) && UnitSteps(Run(w, step, s, acts).value)
  {
    if acts != [] {
      var init, a := acts[..|acts| - 1], acts[|acts| - 1];
      RunStaysWithin(w, step, s, init);
      var s' := Run(w, step, s, init).value;
      if a.TryCpu? && s'.threads[a.t].AtCpu? {
        var th := s'.threads[a.t];
        if s'.cells[th.cpu] == th.seen {
          UnitStaysWithin(w, step, th.seen, th.v);
        }
      }
    }
  }

  // ---- overflow flag ----

  /** The overflow condition of __lttng_counter_add for a positive increment. */
  predicate FlagsOverflow(w: Width, old_: int, n: int, v: int) {
    v > 0 && ((w != W64 && v >= Modulus(w) - 1) || n < old_)
  }

  /** Without a sum step the flag tells mathematical overflow, except for the one increment that
      takes the cell from its minimum exactly to its maximum. */
  lemma OverflowFlagExact(w: Width, c: int, v: int)
    requires -Half(w) <= c < Half(w) && 0 < v < Half(W64)
    ensures FlagsOverflow(w, c, CpuNext(w, 0, c, v).0, v)
            <==> c + v >= Half(w) || (w != W64 && c == -Half(w) && v == Modulus(w) - 1)
  {
    var n := Wrap(w, c + v);
    WrapInRange(w, n);
    if c + v < Half(w) {
      WrapSmall(w, c + v);
    } else if c + v < Half(w) + Modulus(w) {
      WrapOnce(w, c + v);
    }
  }

  /** With a sum step the flag is also set by an ordinary carry: a unit increment of a cell
      within the step sets it exactly when the cell stands at a step of four or more. */
  lemma CarrySetsFlag(w: Width, step: int, c: int)
    requires 2 <= step < Half(w) && -step <= c <= step
    ensures FlagsOverflow(w, c, CpuNext(w, step, c, 1).0, 1) <==> c == step && step >= 4
  {
    WrapInRange(w, c + 1);
    var n := Wrap(w, c + 1);
    WrapInRange(w, n - MoveSum(step, n));
  }

  lemma WrapSmall(w: Width, x: int)
    requires -Half(w) <= x < Half(w)
    ensures Wrap(w, x) == x
  {}

  lemma WrapOnce(w: Width, x: int)
    requires Half(w) <= x < Half(w) + Modulus(w)
    ensures Wrap(w, x) == x - Modulus(w)
  {}

  // ---- the cell of a multi-dimensional counter ----

  function Elements(dims: seq<nat>): nat { if dims == [] then 1 else dims[0] * Elements(dims[1..]) }

  /** Indexes inside the dimensions. */
  predicate InBounds(dims: seq<nat>, idx: seq<nat>) {
    |idx| == |dims| && forall k :: 0 <= k < |dims| ==> idx[k] < dims[k]
  }

  /** Row-major position: each index times its stride, the element count of the later dimensions. */
  function Position(dims: seq<nat>, idx: seq<nat>): nat
    requires |idx| == |dims|
  {
    if dims == [] then 0 else idx[0] * Elements(dims[1..]) + Position(dims[1..], idx[1..])
  }

  lemma {:induction false} PositionInRange(dims: seq<nat>, idx: seq<nat>)
    requires InBounds(dims, idx)
    ensures Position(dims, idx) < Elements(dims)
  {
    if dims != [] {
      var e := Elements(dims[1..]);
      PositionInRange(dims[1..], idx[1..]);
      Multiple(idx[0] + 1, e);
      MultipleMonotone(idx[0] + 1, dims[0], e);
    }
  }

  lemma {:induction false} MultipleMonotone(x: nat, y: nat, e: nat)
    requires x <= y
    ensures x * e <= y * e
    decreases y
  {
    if x < y {
      Multiple(y, e);
      MultipleMonotone(x, y - 1, e);
    }
  }

  /** Different in-bounds indexes address different cells. */
  lemma {:induction false} PositionInjective(dims: seq<nat>, a: seq<nat>, b: seq<nat>)
    requires InBounds(dims, a) && InBounds(dims, b) && Position(dims, a) == Position(dims, b)
    ensures a == b
  {
    if dims != [] {
      var e, p, q := Elements(dims[1..]), Position(dims[1..], a[1..]), Position(dims[1..], b[1..]);
      PositionInRange(dims[1..], a[1..]);
      PositionInRange(dims[1..], b[1..]);
      SameQuotient(a[0], b[0], e, p, q);
      PositionInjective(dims[1..], a[1..], b[1..]);
      assert a == [a[0]] + a[1..] && b == [b[0]] + b[1..];
    }
  }

  lemma {:induction false} SameQuotient(x: nat, y: nat, e: nat, p: nat, q: nat)
    requires x * e + p == y * e + q && p < e && q < e
    ensures x == y
  {
    Multiple(x, e);
    Multiple(y, e);
    if x > 0 && y > 0 {
      SameQuotient(x - 1, y - 1, e, p, q);
    }
  }

  lemma Multiple(x: nat, e: nat)
    ensures if x == 0 then x * e == 0 else x * e == (x - 1) * e + e && (x - 1) * e >= 0
  {}

  /** lttng_counter_validate_indexes */
  method ValidateIndexes(dims: seq<nat>, idx: seq<nat>) returns (ok: bool)
    requires |idx| == |dims|
    ensures ok <==> InBounds(dims, idx)
  {
    for i := 0 to |dims|
      invariant forall k :: 0 <= k < i ==> idx[k] < dims[k]
    {
      if idx[i] >= dims[i] {
        return false;
      }
    }
    return true;
  }

  /** lttng_counter_get_index over the strides set up at creation. */
  method GetIndex(dims: seq<nat>, strides: seq<nat>, idx: seq<nat>) returns (index: nat)
    requires |idx| == |dims| == |strides|
    requires forall k :: 0 <= k < |dims| ==> strides[k] == Elements(dims[k + 1..])
    ensures index == Position(dims, idx)
  {
    index := 0;
    assert dims[0..] == dims && idx[0..] == idx;
    for i := 0 to |dims|
      invariant index + Position(dims[i..], idx[i..]) == Position(dims, idx)
    {
      assert dims[i..][1..] == dims[i + 1..] && idx[i..][1..] == idx[i + 1..];
      index := index + idx[i] * strides[i];
    }
  }
}
