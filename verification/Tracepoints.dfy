/** The table that lets probes be registered by tracepoint name, before or after the module that
    holds the tracepoint is loaded. */
module Tracepoints {
  import opened Words

  datatype Tracepoint = Tracepoint(name: nat, address: nat)
  datatype Probe = Probe(func: nat, data: nat)

  /** struct tracepoint_entry. */
  datatype Entry = Entry(tp: Option<Tracepoint>, refcount: int, probes: seq<Probe>)

  /** kernel holds the registrations made with the kernel's own registry; warned is set when
      that registry refuses a call, because of a duplicate or a missing registration. */
  datatype State = State(table: map<nat, Entry>, kernel: set<(Tracepoint, Probe)>, warned: bool)

  datatype Code = Success | Exists | NoEntry | NoMemory | Invalid

  /** Registration by name and its inverse, a tracepoint that comes or goes with its module or
      the kernel, and the removal used when initialisation fails. The flags tell whether the
      allocation of an entry or of a probe succeeds. */
  datatype Op =
    | Register(name: nat, probe: Probe, entryOk: bool, probeOk: bool)
    | Unregister(name: nat, probe: Probe)
    | Coming(tp: Tracepoint, entryOk: bool)
    | Going(tp: Tracepoint)
    | Remove(tp: Tracepoint)

  const EMPTY := Entry(None, 0, [])

  function EntryOf(s: State, name: nat): Entry { if name in s.table then s.table[name] else EMPTY }

  /** The kernel's tracepoint_probe_register and tracepoint_probe_unregister. */
  function Attach(s: State, tp: Tracepoint, p: Probe): State {
    s.(kernel := s.kernel + {(tp, p)}, warned := s.warned || (tp, p) in s.kernel)
  }

  function Detach(s: State, tp: Tracepoint, p: Probe): State {
    s.(kernel := s.kernel - {(tp, p)}, warned := s.warned || (tp, p) !in s.kernel)
  }

  function AttachAll(s: State, tp: Tracepoint, ps: seq<Probe>): State {
    if ps == [] then s else Attach(AttachAll(s, tp, ps[..|ps| - 1]), tp, ps[|ps| - 1])
  }

  function DetachAll(s: State, tp: Tracepoint, ps: seq<Probe>): State {
    if ps == [] then s else Detach(DetachAll(s, tp, ps[..|ps| - 1]), tp, ps[|ps| - 1])
  }

  /** Where a probe first stands in the list; the length when it does not. */
  function Find(ps: seq<Probe>, p: Probe): (k: nat)
    ensures k <= |ps| && p !in ps[..k] && (k < |ps| ==> ps[k] == p)
  {
    if ps == [] || ps[0] == p then 0 else 1 + Find(ps[1..], p)
  }

  function Store(s: State, name: nat, e: Entry): State {
    s.(table := if e.refcount == 0 then s.table - {name} else s.table[name := e])
  }

  function DoRegister(s: State, name: nat, p: Probe, entryOk: bool, probeOk: bool): (State, Code) {
    if name !in s.table && !entryOk then (s, NoMemory)
    else
      var e := EntryOf(s, name);
      if p in e.probes then (s, Exists)
      else if !probeOk then (s.(table := s.table[name := e]), NoMemory)
      else
        var e' := e.(probes := [p] + e.probes, refcount := e.refcount + 1);
        var s' := s.(table := s.table[name := e']);
        (if e.tp.Some? then Attach(s', e.tp.value, p) else s', Success)
  }

  function DoUnregister(s: State, name: nat, p: Probe): (State, Code) {
    if name !in s.table || p !in s.table[name].probes then (s, NoEntry)
    else
      var e := s.table[name];
      var k := Find(e.probes, p);
      assert k < |e.probes| by { assert e.probes[..|e.probes|] == e.probes; }
      var s' := if e.tp.Some? then Detach(s, e.tp.value, p) else s;
      (Store(s', name, e.(probes := e.probes[..k] + e.probes[k + 1..], refcount := e.refcount - 1)), Success)
  }

  function DoComing(s: State, tp: Tracepoint, entryOk: bool): (State, Code) {
    if tp.name !in s.table && !entryOk then (s, NoMemory)
    else
      var e := EntryOf(s, tp.name);
      if e.tp.Some? then (s, Success)
      else
        var s' := s.(table := s.table[tp.name := e.(tp := Some(tp), refcount := e.refcount + 1)]);
        (AttachAll(s', tp, e.probes), Success)
  }

  function DoGoing(s: State, tp: Tracepoint): (State, Code) {
    var e := EntryOf(s, tp.name);
    if e.tp.None? then (s, Success)
    else (Store(DetachAll(s, e.tp.value, e.probes), tp.name, e.(tp := None, refcount := e.refcount - 1)), Success)
  }

  function Do(s: State, op: Op): (State, Code) {
    match op
    case Register(name, p, entryOk, probeOk) => DoRegister(s, name, p, entryOk, probeOk)
    case Unregister(name, p) => DoUnregister(s, name, p)
    case Coming(tp, entryOk) => DoComing(s, tp, entryOk)
    case Going(tp) => DoGoing(s, tp)
    case Remove(tp) =>
      if tp.name !in s.table || s.table[tp.name].refcount != 1 || s.table[tp.name].probes != [] then (s, Invalid)
      else (s.(table := s.table - {tp.name}), Success)
  }

  function Run(ops: seq<Op>): State {
    if ops == [] then State(map[], {}, false) else Do(Run(ops[..|ops| - 1]), ops[|ops| - 1]).0
  }

  ghost predicate Distinct(ps: seq<Probe>) { forall j, k :: 0 <= j < k < |ps| ==> ps[j] != ps[k] }

  /** The reference count is the number of probes, and one for a tracepoint that is present. */
  ghost predicate EntryOk(name: nat, e: Entry) {
    && e.refcount == |e.probes| + (if e.tp.Some? then 1 else 0)
    && Distinct(e.probes)
    && (e.tp.Some? ==> e.tp.value.name == name)
  }

  /** A probe is asked for by name, and its tracepoint is present. */
  predicate Active(s: State, tp: Tracepoint, p: Probe) {
    tp.name in s.table && s.table[tp.name].tp == Some(tp) && p in s.table[tp.name].probes
  }

  /** The kernel runs exactly the probes whose tracepoint is present, and never refused a call. */
  ghost predicate Inv(s: State) {
    && (forall n :: n in s.table ==> EntryOk(n, s.table[n]))
    && (forall tp, p :: (tp, p) in s.kernel <==> Active(s, tp, p))
    && !s.warned
  }

  lemma {:induction false} AttachAllExact(s: State, tp: Tracepoint, ps: seq<Probe>)
    requires Distinct(ps) && forall p :: p in ps ==> (tp, p) !in s.kernel
    ensures var r := AttachAll(s, tp, ps);
            && r.table == s.table && r.warned == s.warned
            && forall q, p :: (q, p) in r.kernel <==> (q, p) in s.kernel || (q == tp && p in ps)
  {
    if ps != [] {
      var init := ps[..|ps| - 1];
      AttachAllExact(s, tp, init);
      assert ps == init + [ps[|ps| - 1]];
    }
  }

  lemma {:induction false} DetachAllExact(s: State, tp: Tracepoint, ps: seq<Probe>)
    requires Distinct(ps) && forall p :: p in ps ==> (tp, p) in s.kernel
    ensures var r := DetachAll(s, tp, ps);
            && r.table == s.table && r.warned == s.warned
            && forall q, p :: (q, p) in r.kernel <==> (q, p) in s.kernel && !(q == tp && p in ps)
  {
    if ps != [] {
      var init := ps[..|ps| - 1];
      DetachAllExact(s, tp, init);
      assert ps == init + [ps[|ps| - 1]];
    }
  }

  lemma RegisterKeeps(s: State, name: nat, p: Probe, entryOk: bool, probeOk: bool)
    requires Inv(s)
    ensures Inv(DoRegister(s, name, p, entryOk, probeOk).0)
  {
    var s' := DoRegister(s, name, p, entryOk, probeOk).0;
    forall tp, q ensures (tp, q) in s'.kernel <==> Active(s', tp, q) {
      assert (tp, q) in s.kernel <==> Active(s, tp, q);
    }
  }

  lemma DropOne(ps: seq<Probe>, k: nat)
    requires k < |ps| && Distinct(ps)
    ensures var r := ps[..k] + ps[k + 1..];
            Distinct(r) && |r| == |ps| - 1 && forall q :: q in r <==> q in ps && q != ps[k]
  {
    assert ps == ps[..k] + [ps[k]] + ps[k + 1..];
  }

  lemma UnregisterKeeps(s: State, name: nat, p: Probe)
    requires Inv(s)
    ensures Inv(DoUnregister(s, name, p).0)
  {
    if name in s.table && p in s.table[name].probes {
      var e := s.table[name];
      var k := Find(e.probes, p);
      assert k < |e.probes| by { assert e.probes[..|e.probes|] == e.probes; }
      DropOne(e.probes, k);
      var s' := DoUnregister(s, name, p).0;
      forall tp, q ensures (tp, q) in s'.kernel <==> Active(s', tp, q) {
        assert (tp, q) in s.kernel <==> Active(s, tp, q);
      }
      if e.tp.Some? {
        assert Active(s, e.tp.value, p);
      }
    }
  }

  lemma ComingKeeps(s: State, tp: Tracepoint, entryOk: bool)
    requires Inv(s)
    ensures Inv(DoComing(s, tp, entryOk).0)
  {
    var e, s' := EntryOf(s, tp.name), DoComing(s, tp, entryOk).0;
    if (tp.name in s.table || entryOk) && e.tp.None? {
      forall p | p in e.probes ensures (tp, p) !in s.kernel {
        assert !Active(s, tp, p);
      }
      AttachAllExact(s.(table := s.table[tp.name := e.(tp := Some(tp), refcount := e.refcount + 1)]), tp, e.probes);
      forall t, q ensures (t, q) in s'.kernel <==> Active(s', t, q) {
        assert (t, q) in s.kernel <==> Active(s, t, q);
      }
    }
  }

  lemma GoingKeeps(s: State, tp: Tracepoint)
    requires Inv(s)
    ensures Inv(DoGoing(s, tp).0)
  {
    var e, s' := EntryOf(s, tp.name), DoGoing(s, tp).0;
    if e.tp.Some? {
      forall p | p in e.probes ensures (e.tp.value, p) in s.kernel {
        assert Active(s, e.tp.value, p);
      }
      DetachAllExact(s, e.tp.value, e.probes);
      forall t, q ensures (t, q) in s'.kernel <==> Active(s', t, q) {
        assert (t, q) in s.kernel <==> Active(s, t, q);
      }
    }
  }

  lemma RemoveKeeps(s: State, tp: Tracepoint)
    requires Inv(s)
    ensures Inv(Do(s, Remove(tp)).0)
  {
    var s' := Do(s, Remove(tp)).0;
    forall t, q ensures (t, q) in s'.kernel <==> Active(s', t, q) {
      assert (t, q) in s.kernel <==> Active(s, t, q);
    }
  }

  /** In every run of registrations and module events: reference counts are exact, the kernel's
      registrations are exactly the active ones, and the kernel never refused one. */
  lemma {:induction false} RunKeeps(ops: seq<Op>)
    ensures Inv(Run(ops))
  {
    if ops != [] {
      var s, op := Run(ops[..|ops| - 1]), ops[|ops| - 1];
      RunKeeps(ops[..|ops| - 1]);
      match op
      case Register(name, p, entryOk, probeOk) => RegisterKeeps(s, name, p, entryOk, probeOk);
      case Unregister(name, p) => UnregisterKeeps(s, name, p);
      case Coming(tp, entryOk) => ComingKeeps(s, tp, entryOk);
      case Going(tp) => GoingKeeps(s, tp);
      case Remove(tp) => RemoveKeeps(s, tp);
    }
  }

  /** Every entry is there for a probe or a tracepoint. */
  ghost predicate NoIdleEntry(s: State) { forall n :: n in s.table ==> s.table[n].refcount > 0 }

  /** An operation leaves an idle entry exactly when it made the entry and then found no memory
      for the probe. */
  lemma IdleExactly(s: State, op: Op)
    requires Inv(s) && NoIdleEntry(s)
    ensures NoIdleEntry(Do(s, op).0) <==> !(op.Register? && op.name !in s.table && op.entryOk && !op.probeOk)
  {
    var s' := Do(s, op).0;
    match op
    case Register(name, p, entryOk, probeOk) =>
      if name !in s.table && entryOk && !probeOk {
        assert name in s'.table && s'.table[name].refcount == 0;
      }
    case Unregister(name, p) =>
    case Coming(tp, entryOk) =>
      var e := EntryOf(s, tp.name);
      if (tp.name in s.table || entryOk) && e.tp.None? {
        ComingTable(s, tp, entryOk);
      }
    case Going(tp) =>
      var e := EntryOf(s, tp.name);
      if e.tp.Some? {
        GoingTable(s, tp);
      }
    case Remove(tp) =>
  }

  lemma ComingTable(s: State, tp: Tracepoint, entryOk: bool)
    requires Inv(s) && (tp.name in s.table || entryOk) && EntryOf(s, tp.name).tp.None?
    ensures var e := EntryOf(s, tp.name);
            DoComing(s, tp, entryOk).0.table == s.table[tp.name := e.(tp := Some(tp), refcount := e.refcount + 1)]
  {
    var e := EntryOf(s, tp.name);
    forall p | p in e.probes ensures (tp, p) !in s.kernel {
      assert !Active(s, tp, p);
    }
    AttachAllExact(s.(table := s.table[tp.name := e.(tp := Some(tp), refcount := e.refcount + 1)]), tp, e.probes);
  }

  lemma GoingTable(s: State, tp: Tracepoint)
    requires Inv(s) && EntryOf(s, tp.name).tp.Some?
    ensures var e := EntryOf(s, tp.name);
            DoGoing(s, tp).0.table == Store(s, tp.name, e.(tp := None, refcount := e.refcount - 1)).table
  {
    var e := EntryOf(s, tp.name);
    forall p | p in e.probes ensures (e.tp.value, p) in s.kernel {
      assert Active(s, e.tp.value, p);
    }
    DetachAllExact(s, e.tp.value, e.probes);
  }

  /** Registering and then unregistering restores what the kernel runs, whatever happened. */
  lemma RegisterUnregister(s: State, name: nat, p: Probe, entryOk: bool, probeOk: bool)
    requires Inv(s) && DoRegister(s, name, p, entryOk, probeOk).1 == Success
    ensures var s' := DoRegister(s, name, p, entryOk, probeOk).0;
            DoUnregister(s', name, p).1 == Success && DoUnregister(s', name, p).0.kernel == s.kernel
  {
    var s' := DoRegister(s, name, p, entryOk, probeOk).0;
    var e := EntryOf(s, name);
    assert s'.table[name].probes[0] == p;
    if e.tp.Some? {
      assert (e.tp.value, p) !in s.kernel by { assert !Active(s, e.tp.value, p); }
    }
  }

  /** The probe stands under the name. */
  predicate Stands(s: State, name: nat, p: Probe) { name in s.table && p in s.table[name].probes }

  /** A registration fails for a duplicate exactly when the probe is there already, and for lack of
      memory exactly when it is not and an allocation that it needs fails. */
  lemma RegisterCodes(s: State, name: nat, p: Probe, entryOk: bool, probeOk: bool)
    ensures var (r, code) := DoRegister(s, name, p, entryOk, probeOk);
            && (code == Exists <==> Stands(s, name, p))
            && (code == NoMemory <==> !Stands(s, name, p) && ((name !in s.table && !entryOk) || !probeOk))
            && (code == Success <==> !Stands(s, name, p) && (name in s.table || entryOk) && probeOk)
            && (Stands(r, name, p) <==> Stands(s, name, p) || code == Success)
            && forall m: nat, q :: (m, q) != (name, p) ==> (Stands(r, m, q) <==> Stands(s, m, q))
  {
  }

  lemma UnregisterCodes(s: State, name: nat, p: Probe)
    requires Inv(s)
    ensures var (r, code) := DoUnregister(s, name, p);
            && (code == if Stands(s, name, p) then Success else NoEntry)
            && !Stands(r, name, p)
            && forall m: nat, q :: (m, q) != (name, p) ==> (Stands(r, m, q) <==> Stands(s, m, q))
  {
    if Stands(s, name, p) {
      var ps := s.table[name].probes;
      var k := Find(ps, p);
      assert ps[..|ps|] == ps;
      DropOne(ps, k);
      if s.table[name].refcount == 1 {
        assert |ps| == 1;
      }
    }
  }

  /** Tracepoints that come and go leave the probes alone. */
  lemma OthersKeep(s: State, op: Op, name: nat, p: Probe)
    requires Inv(s) && (op.Coming? || op.Going? || op.Remove?)
    ensures Stands(Do(s, op).0, name, p) <==> Stands(s, name, p)
  {
    if op.Coming? {
      if (op.tp.name in s.table || op.entryOk) && EntryOf(s, op.tp.name).tp.None? {
        ComingTable(s, op.tp, op.entryOk);
      }
    } else if op.Going? {
      if EntryOf(s, op.tp.name).tp.Some? {
        GoingTable(s, op.tp);
      }
    }
  }

  /** Successful registrations of a probe, less the successful ends of them. */
  function Net(ops: seq<Op>, name: nat, p: Probe): int {
    if ops == [] then 0
    else
      var before, op := ops[..|ops| - 1], ops[|ops| - 1];
      Net(before, name, p) +
      if Do(Run(before), op).1 != Success then 0
      else if op.Register? && op.name == name && op.probe == p then 1
      else if op == Unregister(name, p) then -1
      else 0
  }

  /** After any run a probe stands under a name exactly when it was registered with success once
      more than it was unregistered, and it is never registered twice. */
  lemma {:induction false} RegisteredOnce(ops: seq<Op>, name: nat, p: Probe)
    ensures Net(ops, name, p) == if Stands(Run(ops), name, p) then 1 else 0
  {
    if ops != [] {
      var before, op := ops[..|ops| - 1], ops[|ops| - 1];
      RegisteredOnce(before, name, p);
      RunKeeps(before);
      match op
      case Register(m, q, entryOk, probeOk) => RegisterCodes(Run(before), m, q, entryOk, probeOk);
      case Unregister(m, q) => UnregisterCodes(Run(before), m, q);
      case _ => OthersKeep(Run(before), op, name, p);
    }
  }

  /** The tracepoint of a name: the one that came with success while there was none, until one of
      that name goes or is removed. */
  function Here(ops: seq<Op>, name: nat): Option<Tracepoint> {
    if ops == [] then None
    else
      var before, op := ops[..|ops| - 1], ops[|ops| - 1];
      var was, done := Here(before, name), Do(Run(before), op).1 == Success;
      if op.Coming? && op.tp.name == name && was.None? && done then Some(op.tp)
      else if (op.Going? || op.Remove?) && op.tp.name == name && done then None
      else was
  }

  lemma {:induction false} HereIsPresent(ops: seq<Op>, name: nat)
    ensures EntryOf(Run(ops), name).tp == Here(ops, name)
  {
    if ops != [] {
      var before, op := ops[..|ops| - 1], ops[|ops| - 1];
      HereIsPresent(before, name);
      RunKeeps(before);
      EntryStep(Run(before), op, name);
    }
  }

  /** What one operation does to the tracepoint of a name. */
  lemma EntryStep(s: State, op: Op, name: nat)
    requires Inv(s)
    ensures var was, (r, code) := EntryOf(s, name).tp, Do(s, op);
            EntryOf(r, name).tp ==
            if op.Coming? && op.tp.name == name && was.None? && code == Success then Some(op.tp)
            else if (op.Going? || op.Remove?) && op.tp.name == name && code == Success then None
            else was
  {
    if op.Coming? && (op.tp.name in s.table || op.entryOk) && EntryOf(s, op.tp.name).tp.None? {
      ComingTable(s, op.tp, op.entryOk);
    } else if op.Going? && EntryOf(s, op.tp.name).tp.Some? {
      GoingTable(s, op.tp);
    } else if op.Unregister? && Stands(s, op.name, op.probe) {
      assert s.table[op.name].refcount == 1 ==> s.table[op.name].tp.None?;
    }
  }

  /** After any run the kernel runs a probe for a tracepoint exactly when that tracepoint is here and
      the probe stands registered under its name, both told by the operations of the run. */
  lemma KernelHistory(ops: seq<Op>, tp: Tracepoint, p: Probe)
    ensures (tp, p) in Run(ops).kernel <==> Here(ops, tp.name) == Some(tp) && Net(ops, tp.name, p) == 1
  {
    RunKeeps(ops);
    HereIsPresent(ops, tp.name);
    RegisteredOnce(ops, tp.name, p);
    assert (tp, p) in Run(ops).kernel <==> Active(Run(ops), tp, p);
  }

  /** The notifier's pass over a module's tracepoints; okAt tells which entry allocations succeed. */
  function ComingAll(s: State, tps: seq<Tracepoint>, okAt: nat -> bool): State {
    if tps == [] then s
    else DoComing(ComingAll(s, tps[..|tps| - 1], okAt), tps[|tps| - 1], okAt(|tps| - 1)).0
  }

  function GoingAll(s: State, tps: seq<Tracepoint>): State {
    if tps == [] then s else DoGoing(GoingAll(s, tps[..|tps| - 1]), tps[|tps| - 1]).0
  }

  /** The tracepoint table and the kernel's registry behind it. */
  class Registry {
    var table: map<nat, Entry>
    var kernel: set<(Tracepoint, Probe)>
    var warned: bool

    ghost function View(): State
      reads this
    {
      State(table, kernel, warned)
    }

    constructor ()
      ensures View() == Run([])
    {
      table, kernel, warned := map[], {}, false;
    }

    method KernelRegister(tp: Tracepoint, p: Probe)
      modifies this`kernel, this`warned
      ensures View() == Attach(old(View()), tp, p)
    {
      if (tp, p) in kernel {
        warned := true;
      }
      kernel := kernel + {(tp, p)};
    }

    method KernelUnregister(tp: Tracepoint, p: Probe)
      modifies this`kernel, this`warned
      ensures View() == Detach(old(View()), tp, p)
    {
      if (tp, p) !in kernel {
        warned := true;
      }
      kernel := kernel - {(tp, p)};
    }

    method ProbeRegister(name: nat, p: Probe, entryOk: bool, probeOk: bool) returns (code: Code)
      modifies this
      ensures (View(), code) == DoRegister(old(View()), name, p, entryOk, probeOk)
    {
      if name !in table {
        if !entryOk {
          return NoMemory;
        }
        table := table[name := EMPTY];
      }
      var e := table[name];
      var k := FindProbe(e.probes, p);
      if k < |e.probes| {
        assert p in e.probes;
        assert table == old(table);
        return Exists;
      }
      assert e.probes[..k] == e.probes;
      if !probeOk {
        assert table == old(table)[name := e];
        return NoMemory;
      }
      e := e.(probes := [p] + e.probes, refcount := e.refcount + 1);
      table := table[name := e];
      assert table == old(table)[name := e];
      if e.tp.Some? {
        KernelRegister(e.tp.value, p);
      }
      return Success;
    }

    method ProbeUnregister(name: nat, p: Probe) returns (code: Code)
      modifies this
      ensures (View(), code) == DoUnregister(old(View()), name, p)
    {
      if name !in table {
        return NoEntry;
      }
      var e := table[name];
      var k := FindProbe(e.probes, p);
      if k == |e.probes| {
        assert e.probes[..k] == e.probes;
        return NoEntry;
      }
      e := e.(probes := e.probes[..k] + e.probes[k + 1..], refcount := e.refcount - 1);
      if e.tp.Some? {
        KernelUnregister(e.tp.value, p);
      }
      PutEntry(name, e);
      return Success;
    }

    /** The entry goes when its last reference does. */
    method PutEntry(name: nat, e: Entry)
      modifies this`table
      ensures View() == Store(old(View()), name, e)
    {
      if e.refcount == 0 {
        table := table - {name};
      } else {
        table := table[name := e];
      }
    }

    method Come(tp: Tracepoint, entryOk: bool)
      modifies this
      ensures View() == DoComing(old(View()), tp, entryOk).0
    {
      if tp.name !in table {
        if !entryOk {
          return;
        }
        table := table[tp.name := EMPTY];
      }
      var e := table[tp.name];
      if e.tp.Some? {
        assert table == old(table);
        return;
      }
      table := table[tp.name := e.(tp := Some(tp), refcount := e.refcount + 1)];
      assert table == old(table)[tp.name := e.(tp := Some(tp), refcount := e.refcount + 1)];
      ghost var start := View();
      var k := 0;
      while k < |e.probes|
        invariant k <= |e.probes| && View() == AttachAll(start, tp, e.probes[..k])
      {
        KernelRegister(tp, e.probes[k]);
        assert e.probes[..k + 1][..k] == e.probes[..k];
        k := k + 1;
      }
      assert e.probes[..k] == e.probes;
    }

    method Go(tp: Tracepoint)
      modifies this
      ensures View() == DoGoing(old(View()), tp).0
    {
      if tp.name !in table || table[tp.name].tp.None? {
        return;
      }
      var e := table[tp.name];
      var k := 0;
      while k < |e.probes|
        invariant k <= |e.probes| && View() == DetachAll(old(View()), e.tp.value, e.probes[..k])
      {
        KernelUnregister(e.tp.value, e.probes[k]);
        assert e.probes[..k + 1][..k] == e.probes[..k];
        k := k + 1;
      }
      assert e.probes[..k] == e.probes;
      PutEntry(tp.name, e.(tp := None, refcount := e.refcount - 1));
    }

    method TracepointComing(tps: seq<Tracepoint>, okAt: nat -> bool)
      modifies this
      ensures View() == ComingAll(old(View()), tps, okAt)
    {
      var i := 0;
      while i < |tps|
        invariant i <= |tps| && View() == ComingAll(old(View()), tps[..i], okAt)
      {
        Come(tps[i], okAt(i));
        assert tps[..i + 1][..i] == tps[..i];
        i := i + 1;
      }
      assert tps[..i] == tps;
    }

    method TracepointGoing(tps: seq<Tracepoint>)
      modifies this
      ensures View() == GoingAll(old(View()), tps)
    {
      var i := 0;
      while i < |tps|
        invariant i <= |tps| && View() == GoingAll(old(View()), tps[..i])
      {
        Go(tps[i]);
        assert tps[..i + 1][..i] == tps[..i];
        i := i + 1;
      }
      assert tps[..i] == tps;
    }
  }

  method FindProbe(ps: seq<Probe>, p: Probe) returns (k: nat)
    ensures k == Find(ps, p)
  {
    k := 0;
    while k < |ps| && ps[k] != p
      invariant k <= |ps| && k + Find(ps[k..], p) == Find(ps, p)
    {
      assert ps[k..][1..] == ps[k + 1..];
      k := k + 1;
    }
  }
}
