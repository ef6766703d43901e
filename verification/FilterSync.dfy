/** Event enablers, the filter programs attached to them, and the synchronisation that decides
    which hits of an event are recorded. */
module FilterSync {
  import opened Words

  /** An attached program: the enabler it belongs to, its place there, and its priority. */
  datatype Bytecode = Bytecode(owner: nat, index: nat, seqnum: nat)

  datatype Enabler = Enabler(enabled: bool, bytecodes: seq<Bytecode>)

  /** struct lttng_kernel_bytecode_runtime; live when its function is the interpreter rather than
      the one that always fails. */
  datatype Runtime = Runtime(bc: Bytecode, linkFailed: bool, live: bool)

  /** registered: the probe is called on a hit. */
  datatype EventState =
    EventState(refs: seq<nat>, runtimes: seq<Runtime>, enabled: bool, registered: bool, evalFilter: bool)

  /** tstate is the conjunction of the transient states of the session and the channel. */
  datatype Session = Session(enablers: seq<Enabler>, events: seq<EventState>, tstate: bool)

  /** What does not change during a session: which enabler matches which event, which program
      links, that is relocates, validates and specialises, against which event, and the probe of
      which event can be registered. */
  datatype World = World(matches: (nat, nat) -> bool, links: (Bytecode, nat) -> bool, registers: nat -> bool)

  // The ordered list of programs linked to an event

  predicate IsLinkedIn(bc: Bytecode, rs: seq<Runtime>) {
    exists k :: 0 <= k < |rs| && rs[k].bc == bc
  }

  ghost predicate Sorted(rs: seq<Runtime>) {
    forall j, k :: 0 <= j < k < |rs| ==> rs[j].bc.seqnum <= rs[k].bc.seqnum
  }

  ghost predicate Distinct(rs: seq<Runtime>) {
    forall j, k :: 0 <= j < k < |rs| ==> rs[j].bc != rs[k].bc
  }

  /** Where the backward scan of the list puts a program of the given priority. */
  function Place(rs: seq<Runtime>, seqnum: nat): (k: nat)
    ensures k <= |rs|
  {
    if rs == [] || rs[|rs| - 1].bc.seqnum <= seqnum then |rs| else Place(rs[..|rs| - 1], seqnum)
  }

  /** On a sorted list that is after every program of lower or equal priority number and before
      every program of a higher one. */
  lemma {:induction false} PlaceSplits(rs: seq<Runtime>, seqnum: nat)
    requires Sorted(rs)
    ensures forall k :: 0 <= k < |rs| ==> (rs[k].bc.seqnum <= seqnum <==> k < Place(rs, seqnum))
  {
    if rs != [] && rs[|rs| - 1].bc.seqnum > seqnum {
      var init := rs[..|rs| - 1];
      PlaceSplits(init, seqnum);
      forall k | 0 <= k < |rs| ensures rs[k].bc.seqnum <= seqnum <==> k < Place(rs, seqnum) {
        if k < |init| {
          assert init[k] == rs[k];
        }
      }
    }
  }

  function Insert(rs: seq<Runtime>, r: Runtime): seq<Runtime> {
    var k := Place(rs, r.bc.seqnum);
    rs[..k] + [r] + rs[k..]
  }

  lemma InsertKeeps(rs: seq<Runtime>, r: Runtime)
    requires Sorted(rs) && Distinct(rs) && !IsLinkedIn(r.bc, rs)
    ensures Sorted(Insert(rs, r)) && Distinct(Insert(rs, r))
    ensures forall x :: x in Insert(rs, r) <==> x == r || x in rs
  {
    PlaceSplits(rs, r.bc.seqnum);
    var k := Place(rs, r.bc.seqnum);
    assert rs == rs[..k] + rs[k..];
  }

  function Linked(w: World, j: nat, bc: Bytecode): Runtime {
    Runtime(bc, !w.links(bc, j), w.links(bc, j))
  }

  function LinkOne(w: World, j: nat, rs: seq<Runtime>, bc: Bytecode): seq<Runtime> {
    if IsLinkedIn(bc, rs) then rs else Insert(rs, Linked(w, j, bc))
  }

  /** lttng_enabler_link_bytecode over an enabler's programs. */
  function LinkAll(w: World, j: nat, rs: seq<Runtime>, bcs: seq<Bytecode>): seq<Runtime> {
    if bcs == [] then rs else LinkOne(w, j, LinkAll(w, j, rs, bcs[..|bcs| - 1]), bcs[|bcs| - 1])
  }

  lemma LinkedStays(bc: Bytecode, rs: seq<Runtime>, rs': seq<Runtime>)
    requires IsLinkedIn(bc, rs) && forall r :: r in rs ==> r in rs'
    ensures IsLinkedIn(bc, rs')
  {
    var k :| 0 <= k < |rs| && rs[k].bc == bc;
    assert rs[k] in rs';
    var k' :| 0 <= k' < |rs'| && rs'[k'] == rs[k];
  }

  lemma LinkOneExact(w: World, j: nat, rs: seq<Runtime>, bc: Bytecode)
    requires Sorted(rs) && Distinct(rs)
    ensures var rs' := LinkOne(w, j, rs, bc);
            && Sorted(rs') && Distinct(rs') && IsLinkedIn(bc, rs')
            && (forall r :: r in rs ==> r in rs')
            && (forall r :: r in rs' ==> r in rs || r == Linked(w, j, bc))
  {
    if !IsLinkedIn(bc, rs) {
      InsertKeeps(rs, Linked(w, j, bc));
      var rs' := LinkOne(w, j, rs, bc);
      assert Linked(w, j, bc) in rs';
      var k :| 0 <= k < |rs'| && rs'[k] == Linked(w, j, bc);
    }
  }

  /** Sorted, free of duplicates, with everything rs had and each of the programs, and with
      nothing else. */
  ghost predicate Extends(w: World, j: nat, rs: seq<Runtime>, rs': seq<Runtime>, bcs: seq<Bytecode>) {
    && Sorted(rs') && Distinct(rs')
    && (forall r :: r in rs ==> r in rs')
    && (forall r :: r in rs' ==> r in rs || (r.bc in bcs && r == Linked(w, j, r.bc)))
    && (forall bc :: bc in bcs ==> IsLinkedIn(bc, rs'))
  }

  lemma ExtendsOne(w: World, j: nat, rs: seq<Runtime>, rs': seq<Runtime>, bcs: seq<Bytecode>, bc: Bytecode)
    requires Extends(w, j, rs, rs', bcs)
    ensures Extends(w, j, rs, LinkOne(w, j, rs', bc), bcs + [bc])
  {
    LinkOneExact(w, j, rs', bc);
    forall b | b in bcs ensures IsLinkedIn(b, LinkOne(w, j, rs', bc)) {
      LinkedStays(b, rs', LinkOne(w, j, rs', bc));
    }
  }

  /** Linking an enabler's programs extends the list by exactly those not yet on it. */
  lemma {:induction false} LinkAllExact(w: World, j: nat, rs: seq<Runtime>, bcs: seq<Bytecode>)
    requires Sorted(rs) && Distinct(rs)
    ensures Extends(w, j, rs, LinkAll(w, j, rs, bcs), bcs)
  {
    if bcs != [] {
      LinkAllExact(w, j, rs, bcs[..|bcs| - 1]);
      ExtendsOne(w, j, rs, LinkAll(w, j, rs, bcs[..|bcs| - 1]), bcs[..|bcs| - 1], bcs[|bcs| - 1]);
      assert bcs == bcs[..|bcs| - 1] + [bcs[|bcs| - 1]];
    }
  }

  ghost predicate Before(rs: seq<Runtime>, x: Runtime, y: Runtime) {
    exists i, k :: 0 <= i < k < |rs| && rs[i] == x && rs[k] == y
  }

  /** Where the entry at i ends up when one is inserted at p. */
  function Moved(p: nat, i: nat): nat { if i < p then i else i + 1 }

  lemma InsertMoves(rs: seq<Runtime>, r: Runtime, i: nat)
    requires i < |rs|
    ensures var p, rs' := Place(rs, r.bc.seqnum), Insert(rs, r);
            |rs'| == |rs| + 1 && rs'[p] == r && rs'[Moved(p, i)] == rs[i]
  {
  }

  lemma OldKeepOrder(rs: seq<Runtime>, r: Runtime, x: Runtime, y: Runtime)
    requires Before(rs, x, y)
    ensures Before(Insert(rs, r), x, y)
  {
    var i, k :| 0 <= i < k < |rs| && rs[i] == x && rs[k] == y;
    InsertMoves(rs, r, i);
    InsertMoves(rs, r, k);
  }

  /** A new program goes after those of lower or equal priority number, before the others. */
  lemma NewGoesAfterEqual(rs: seq<Runtime>, r: Runtime, x: Runtime)
    requires Sorted(rs) && x in rs
    ensures if x.bc.seqnum <= r.bc.seqnum then Before(Insert(rs, r), x, r) else Before(Insert(rs, r), r, x)
  {
    PlaceSplits(rs, r.bc.seqnum);
    var i :| 0 <= i < |rs| && rs[i] == x;
    InsertMoves(rs, r, i);
  }

  /** Linking keeps the order of the programs already there. */
  lemma {:induction false} LinkAllStable(w: World, j: nat, rs: seq<Runtime>, bcs: seq<Bytecode>, x: Runtime, y: Runtime)
    requires Before(rs, x, y)
    ensures Before(LinkAll(w, j, rs, bcs), x, y)
  {
    if bcs != [] {
      var init := bcs[..|bcs| - 1];
      LinkAllStable(w, j, rs, init, x, y);
      OldKeepOrder(LinkAll(w, j, rs, init), Linked(w, j, bcs[|bcs| - 1]), x, y);
    }
  }

  // Synchronisation of one event

  /** lttng_event_enabler_ref_events, for enabler i and event j. */
  function Ref(w: World, i: nat, en: Enabler, j: nat, ev: EventState): EventState {
    if !en.enabled || !w.matches(i, j) then ev
    else ev.(refs := if i in ev.refs then ev.refs else [i] + ev.refs,
             runtimes := LinkAll(w, j, ev.runtimes, en.bytecodes))
  }

  function RefAll(w: World, ens: seq<Enabler>, j: nat, ev: EventState): EventState {
    if ens == [] then ev
    else Ref(w, |ens| - 1, ens[|ens| - 1], j, RefAll(w, ens[..|ens| - 1], j, ev))
  }

  predicate IsEnabled(ens: seq<Enabler>, i: nat) { i < |ens| && ens[i].enabled }

  /** lttng_bytecode_sync_state. */
  function SyncRuntime(ens: seq<Enabler>, r: Runtime): Runtime {
    r.(live := IsEnabled(ens, r.bc.owner) && !r.linkFailed)
  }

  function SyncRuntimes(ens: seq<Enabler>, rs: seq<Runtime>): (t: seq<Runtime>)
    ensures |t| == |rs| && forall k :: 0 <= k < |rs| ==> t[k] == SyncRuntime(ens, rs[k])
  {
    if rs == [] then [] else SyncRuntimes(ens, rs[..|rs| - 1]) + [SyncRuntime(ens, rs[|rs| - 1])]
  }

  predicate HasEnabled(ens: seq<Enabler>, refs: seq<nat>) {
    exists k :: 0 <= k < |refs| && IsEnabled(ens, refs[k])
  }

  predicate HasUnfiltered(ens: seq<Enabler>, refs: seq<nat>) {
    exists k :: 0 <= k < |refs| && IsEnabled(ens, refs[k]) && ens[refs[k]].bytecodes == []
  }

  /** register_event and unregister_event: an attempt when the enabled state asks for it. */
  function SyncRegistered(enabled: bool, registers: bool, registered: bool): bool {
    if !enabled then false else if registered then true else registers
  }

  /** Enabled state, registration and lttng_event_sync_filter_state. */
  function SyncState(ens: seq<Enabler>, tstate: bool, registers: bool, ev: EventState): EventState {
    var enabled := HasEnabled(ens, ev.refs) && tstate;
    ev.(enabled := enabled,
        registered := SyncRegistered(enabled, registers, ev.registered),
        runtimes := SyncRuntimes(ens, ev.runtimes),
        evalFilter := !(HasUnfiltered(ens, ev.refs) || |ev.runtimes| == 0))
  }

  function SyncEvent(w: World, s: Session, j: nat, ev: EventState): EventState {
    SyncState(s.enablers, s.tstate, w.registers(j), RefAll(w, s.enablers, j, ev))
  }

  function SyncAll(w: World, s: Session, n: nat): (r: seq<EventState>)
    requires n <= |s.events|
    ensures |r| == n && forall j :: 0 <= j < n ==> r[j] == SyncEvent(w, s, j, s.events[j])
  {
    if n == 0 then [] else SyncAll(w, s, n - 1) + [SyncEvent(w, s, n - 1, s.events[n - 1])]
  }

  // Runs

  datatype Op =
    | AddEnabler
    | SetEnabled(i: nat, on: bool)
    | Attach(i: nat, seqnum: nat)
    | AddEvent
    | SetTstate(on: bool)
    | Sync

  function Do(w: World, s: Session, op: Op): Session {
    match op
    case AddEnabler => s.(enablers := s.enablers + [Enabler(false, [])])
    case SetEnabled(i, on) =>
      if i >= |s.enablers| then s else s.(enablers := s.enablers[i := s.enablers[i].(enabled := on)])
    case Attach(i, seqnum) =>
      if i >= |s.enablers| then s
      else
        var en := s.enablers[i];
        s.(enablers := s.enablers[i := en.(bytecodes := en.bytecodes + [Bytecode(i, |en.bytecodes|, seqnum)])])
    case AddEvent => s.(events := s.events + [EventState([], [], false, false, false)])
    case SetTstate(on) => s.(tstate := on)
    case Sync => s.(events := SyncAll(w, s, |s.events|))
  }

  function Run(w: World, ops: seq<Op>): Session {
    if ops == [] then Session([], [], true) else Do(w, Run(w, ops[..|ops| - 1]), ops[|ops| - 1])
  }

  /** A linked program belongs to a referenced enabler and records whether it linked. */
  ghost predicate RuntimeOk(w: World, ens: seq<Enabler>, j: nat, refs: seq<nat>, r: Runtime) {
    && r.bc.owner in refs && r.bc.owner < |ens| && r.bc in ens[r.bc.owner].bytecodes
    && r.linkFailed == !w.links(r.bc, j)
  }

  ghost predicate EventOk(w: World, ens: seq<Enabler>, j: nat, ev: EventState) {
    && (forall i :: i in ev.refs ==> i < |ens| && w.matches(i, j))
    && Sorted(ev.runtimes) && Distinct(ev.runtimes)
    && (forall r :: r in ev.runtimes ==> RuntimeOk(w, ens, j, ev.refs, r))
    && (ev.registered ==> ev.enabled && w.registers(j))
  }

  ghost predicate Owned(ens: seq<Enabler>) {
    forall i, bc :: 0 <= i < |ens| && bc in ens[i].bytecodes ==> bc.owner == i
  }

  ghost predicate Inv(w: World, s: Session) {
    Owned(s.enablers) && forall j :: 0 <= j < |s.events| ==> EventOk(w, s.enablers, j, s.events[j])
  }

  /** Enablers are only added, and keep the programs they have. */
  ghost predicate Grows(ens: seq<Enabler>, ens': seq<Enabler>) {
    |ens| <= |ens'| && forall i, bc :: 0 <= i < |ens| && bc in ens[i].bytecodes ==> bc in ens'[i].bytecodes
  }

  lemma EventOkGrows(w: World, ens: seq<Enabler>, ens': seq<Enabler>, j: nat, ev: EventState)
    requires EventOk(w, ens, j, ev) && Grows(ens, ens')
    ensures EventOk(w, ens', j, ev)
  {
    forall r | r in ev.runtimes ensures RuntimeOk(w, ens', j, ev.refs, r) {
      assert RuntimeOk(w, ens, j, ev.refs, r);
    }
  }

  /** Every enabled matching enabler among the first n is referenced with all its programs. */
  ghost predicate Complete(w: World, ens: seq<Enabler>, n: nat, j: nat, ev: EventState)
    requires n <= |ens|
  {
    forall i :: 0 <= i < n && ens[i].enabled && w.matches(i, j) ==>
      i in ev.refs && forall bc :: bc in ens[i].bytecodes ==> IsLinkedIn(bc, ev.runtimes)
  }

  lemma RefKeeps(w: World, ens: seq<Enabler>, i: nat, j: nat, ev: EventState)
    requires Owned(ens) && EventOk(w, ens, j, ev) && i < |ens| && Complete(w, ens, i, j, ev)
    ensures EventOk(w, ens, j, Ref(w, i, ens[i], j, ev)) && Complete(w, ens, i + 1, j, Ref(w, i, ens[i], j, ev))
  {
    var ev' := Ref(w, i, ens[i], j, ev);
    if ens[i].enabled && w.matches(i, j) {
      LinkAllExact(w, j, ev.runtimes, ens[i].bytecodes);
      forall r | r in ev'.runtimes ensures RuntimeOk(w, ens, j, ev'.refs, r) {
        if r in ev.runtimes {
          assert RuntimeOk(w, ens, j, ev.refs, r);
        }
      }
      forall h, bc | 0 <= h < i && ens[h].enabled && w.matches(h, j) && bc in ens[h].bytecodes
        ensures IsLinkedIn(bc, ev'.runtimes)
      {
        LinkedStays(bc, ev.runtimes, ev'.runtimes);
      }
    }
  }

  lemma {:induction false} RefAllComplete(w: World, ens: seq<Enabler>, n: nat, j: nat, ev: EventState)
    requires Owned(ens) && EventOk(w, ens, j, ev) && n <= |ens|
    ensures EventOk(w, ens, j, RefAll(w, ens[..n], j, ev)) && Complete(w, ens, n, j, RefAll(w, ens[..n], j, ev))
  {
    if n > 0 {
      RefAllComplete(w, ens, n - 1, j, ev);
      assert ens[..n][..n - 1] == ens[..n - 1];
      RefKeeps(w, ens, n - 1, j, RefAll(w, ens[..n - 1], j, ev));
    }
  }

  /** A synchronised event: complete, and with its flags and functions set accordingly. */
  ghost predicate Synced(w: World, s: Session, j: nat, ev: EventState) {
    && EventOk(w, s.enablers, j, ev) && Complete(w, s.enablers, |s.enablers|, j, ev)
    && ev.enabled == (HasEnabled(s.enablers, ev.refs) && s.tstate)
    && ev.registered == (ev.enabled && w.registers(j))
    && ev.evalFilter == !(HasUnfiltered(s.enablers, ev.refs) || |ev.runtimes| == 0)
    && forall r :: r in ev.runtimes ==> r == SyncRuntime(s.enablers, r)
  }

  lemma SyncStateKeeps(w: World, s: Session, j: nat, ev: EventState)
    requires EventOk(w, s.enablers, j, ev) && Complete(w, s.enablers, |s.enablers|, j, ev)
    ensures Synced(w, s, j, SyncState(s.enablers, s.tstate, w.registers(j), ev))
  {
    var ev' := SyncState(s.enablers, s.tstate, w.registers(j), ev);
    forall r | r in ev'.runtimes ensures RuntimeOk(w, s.enablers, j, ev'.refs, r) {
      var k :| 0 <= k < |ev'.runtimes| && ev'.runtimes[k] == r;
      assert RuntimeOk(w, s.enablers, j, ev.refs, ev.runtimes[k]);
    }
    forall i, bc | 0 <= i < |s.enablers| && s.enablers[i].enabled && w.matches(i, j) && bc in s.enablers[i].bytecodes
      ensures IsLinkedIn(bc, ev'.runtimes)
    {
      var k :| 0 <= k < |ev.runtimes| && ev.runtimes[k].bc == bc;
      assert ev'.runtimes[k].bc == bc;
    }
  }

  lemma SyncEventSynced(w: World, s: Session, j: nat, ev: EventState)
    requires Owned(s.enablers) && EventOk(w, s.enablers, j, ev)
    ensures Synced(w, s, j, SyncEvent(w, s, j, ev))
  {
    var n := |s.enablers|;
    RefAllComplete(w, s.enablers, n, j, ev);
    assert s.enablers[..n] == s.enablers;
    SyncStateKeeps(w, s, j, RefAll(w, s.enablers, j, ev));
  }

  lemma StepKeeps(w: World, s: Session, op: Op)
    requires Inv(w, s)
    ensures Inv(w, Do(w, s, op))
  {
    var s' := Do(w, s, op);
    forall j | 0 <= j < |s'.events| ensures EventOk(w, s'.enablers, j, s'.events[j]) {
      if j < |s.events| {
        EventOkGrows(w, s.enablers, s'.enablers, j, s.events[j]);
        if op.Sync? {
          SyncEventSynced(w, s, j, s.events[j]);
        }
      }
    }
  }

  /** In every run each event's programs are in order of priority, without duplicates, each from
      a matching enabler. */
  lemma {:induction false} RunKeeps(w: World, ops: seq<Op>)
    ensures Inv(w, Run(w, ops))
  {
    if ops != [] {
      RunKeeps(w, ops[..|ops| - 1]);
      StepKeeps(w, Run(w, ops[..|ops| - 1]), ops[|ops| - 1]);
    }
  }

  // What a hit does

  /** The probe and lttng_kernel_interpret_event_filter: accepts tells, for this hit, which
      programs run without error and accept. */
  ghost predicate Records(ev: EventState, accepts: Bytecode -> bool) {
    ev.registered && ev.enabled && (ev.evalFilter ==> exists r :: r in ev.runtimes && r.live && accepts(r.bc))
  }

  /** What the enablers ask for, said without the event's lists. */
  ghost predicate Wanted(w: World, s: Session, j: nat, accepts: Bytecode -> bool, i: nat) {
    && i < |s.enablers| && s.enablers[i].enabled && w.matches(i, j)
    && (s.enablers[i].bytecodes == [] || exists bc :: bc in s.enablers[i].bytecodes && w.links(bc, j) && accepts(bc))
  }

  lemma SomeLinked(bcs: seq<Bytecode>, rs: seq<Runtime>)
    requires bcs != [] && forall bc :: bc in bcs ==> IsLinkedIn(bc, rs)
    ensures |rs| > 0
  {
    assert IsLinkedIn(bcs[0], rs);
  }

  lemma RecordedIsWanted(w: World, s: Session, j: nat, ev: EventState, accepts: Bytecode -> bool)
    requires Synced(w, s, j, ev) && Records(ev, accepts)
    ensures exists i :: Wanted(w, s, j, accepts, i)
  {
    if ev.evalFilter {
      var r :| r in ev.runtimes && r.live && accepts(r.bc);
      assert RuntimeOk(w, s.enablers, j, ev.refs, r);
      assert Wanted(w, s, j, accepts, r.bc.owner);
    } else {
      var k :| 0 <= k < |ev.refs| && IsEnabled(s.enablers, ev.refs[k]);
      assert ev.refs[k] in ev.refs;
      if s.enablers[ev.refs[k]].bytecodes != [] {
        SomeLinked(s.enablers[ev.refs[k]].bytecodes, ev.runtimes);
        k :| 0 <= k < |ev.refs| && IsEnabled(s.enablers, ev.refs[k]) && s.enablers[ev.refs[k]].bytecodes == [];
        assert ev.refs[k] in ev.refs;
      }
      assert Wanted(w, s, j, accepts, ev.refs[k]);
    }
  }

  lemma WantedIsRecorded(w: World, s: Session, j: nat, ev: EventState, accepts: Bytecode -> bool, i: nat)
    requires Owned(s.enablers) && Synced(w, s, j, ev) && Wanted(w, s, j, accepts, i) && s.tstate && w.registers(j)
    ensures Records(ev, accepts)
  {
    assert i in ev.refs;
    var k :| 0 <= k < |ev.refs| && ev.refs[k] == i;
    assert IsEnabled(s.enablers, ev.refs[k]);
    if s.enablers[i].bytecodes != [] {
      var bc :| bc in s.enablers[i].bytecodes && w.links(bc, j) && accepts(bc);
      assert IsLinkedIn(bc, ev.runtimes);
      var h :| 0 <= h < |ev.runtimes| && ev.runtimes[h].bc == bc;
      var r := ev.runtimes[h];
      assert r in ev.runtimes && RuntimeOk(w, s.enablers, j, ev.refs, r);
    }
  }

  /** After any run that ends with a synchronisation, a hit is recorded exactly when the session
      and channel are active, the probe can be registered, and some enabled matching enabler either
      has no filter or has a program that links and accepts. */
  lemma FilterMeaning(w: World, ops: seq<Op>, j: nat, accepts: Bytecode -> bool)
    requires ops != [] && ops[|ops| - 1] == Sync && j < |Run(w, ops).events|
    ensures var s := Run(w, ops);
            Records(s.events[j], accepts) <==> s.tstate && w.registers(j) && exists i :: Wanted(w, s, j, accepts, i)
  {
    var before, s := Run(w, ops[..|ops| - 1]), Run(w, ops);
    RunKeeps(w, ops[..|ops| - 1]);
    SyncEventSynced(w, before, j, before.events[j]);
    var ev := s.events[j];
    assert ev == SyncEvent(w, before, j, before.events[j]);
    assert Synced(w, s, j, ev) by { assert s.enablers == before.enablers && s.tstate == before.tstate; }
    if Records(ev, accepts) {
      RecordedIsWanted(w, s, j, ev, accepts);
    }
    if s.tstate && w.registers(j) && exists i :: Wanted(w, s, j, accepts, i) {
      var i :| Wanted(w, s, j, accepts, i);
      WantedIsRecorded(w, s, j, ev, accepts, i);
    }
  }

  // The event object

  /** The backward scan for the place of a program. */
  method FindPlace(rs: seq<Runtime>, seqnum: nat) returns (k: nat)
    ensures k == Place(rs, seqnum)
  {
    k := |rs|;
    assert rs[..k] == rs;
    while k > 0 && rs[k - 1].bc.seqnum > seqnum
      invariant k <= |rs| && Place(rs[..k], seqnum) == Place(rs, seqnum)
    {
      assert rs[..k][..k - 1] == rs[..k - 1];
      k := k - 1;
    }
  }

  method FindLinked(rs: seq<Runtime>, bc: Bytecode) returns (found: bool)
    ensures found == IsLinkedIn(bc, rs)
  {
    found := false;
    var k := 0;
    while k < |rs| && !found
      invariant k <= |rs| && (found ==> IsLinkedIn(bc, rs))
      invariant !found ==> forall h :: 0 <= h < k ==> rs[h].bc != bc
    {
      found := rs[k].bc == bc;
      k := k + 1;
    }
  }

  /** struct lttng_kernel_event_common with its private lists; j is the event's number. */
  class Event {
    const j: nat
    var refs: seq<nat>
    var runtimes: seq<Runtime>
    var enabled: bool
    var registered: bool
    var evalFilter: bool

    constructor (j: nat)
      ensures this.j == j && View() == EventState([], [], false, false, false)
    {
      this.j := j;
      refs, runtimes, enabled, registered, evalFilter := [], [], false, false, false;
    }

    ghost function View(): EventState
      reads this
    {
      EventState(refs, runtimes, enabled, registered, evalFilter)
    }

    method LinkBytecodes(w: World, bcs: seq<Bytecode>)
      modifies this
      ensures View() == old(View()).(runtimes := LinkAll(w, j, old(runtimes), bcs))
    {
      var n := 0;
      while n < |bcs|
        invariant n <= |bcs| && View() == old(View()).(runtimes := LinkAll(w, j, old(runtimes), bcs[..n]))
      {
        var found := FindLinked(runtimes, bcs[n]);
        if !found {
          var k := FindPlace(runtimes, bcs[n].seqnum);
          runtimes := runtimes[..k] + [Linked(w, j, bcs[n])] + runtimes[k..];
        }
        assert bcs[..n + 1][..n] == bcs[..n];
        n := n + 1;
      }
      assert bcs[..n] == bcs;
    }

    method RefEvent(w: World, i: nat, en: Enabler)
      modifies this
      ensures View() == Ref(w, i, en, j, old(View()))
    {
      if en.enabled && w.matches(i, j) {
        if i !in refs {
          refs := [i] + refs;
        }
        LinkBytecodes(w, en.bytecodes);
      }
    }

    method FindUnfiltered(ens: seq<Enabler>) returns (found: bool)
      ensures found == HasUnfiltered(ens, refs)
    {
      found := false;
      var k := 0;
      while k < |refs| && !found
        invariant k <= |refs| && (found ==> HasUnfiltered(ens, refs))
        invariant !found ==> forall h :: 0 <= h < k ==> !(IsEnabled(ens, refs[h]) && ens[refs[h]].bytecodes == [])
      {
        found := IsEnabled(ens, refs[k]) && ens[refs[k]].bytecodes == [];
        k := k + 1;
      }
    }

    method SyncFilterState(ens: seq<Enabler>)
      modifies this
      ensures View() == SyncState(ens, true, true, old(View())).(enabled := old(enabled), registered := old(registered))
    {
      var unfiltered := FindUnfiltered(ens);
      var filters := 0;
      while filters < |runtimes|
        invariant filters <= |runtimes| == |old(runtimes)|
        invariant forall k :: 0 <= k < |runtimes| ==>
            runtimes[k] == if k < filters then SyncRuntime(ens, old(runtimes)[k]) else old(runtimes)[k]
        invariant refs == old(refs) && enabled == old(enabled) && registered == old(registered)
      {
        runtimes := runtimes[filters := SyncRuntime(ens, runtimes[filters])];
        filters := filters + 1;
      }
      assert runtimes == SyncRuntimes(ens, old(runtimes));
      evalFilter := !(unfiltered || filters == 0);
    }

    /** lttng_sync_event_list, for this event. */
    method SyncEventList(w: World, s: Session)
      modifies this
      ensures View() == SyncEvent(w, s, j, old(View()))
    {
      var i, n := 0, |s.enablers|;
      while i < n
        invariant i <= n && View() == RefAll(w, s.enablers[..i], j, old(View()))
      {
        RefEvent(w, i, s.enablers[i]);
        assert s.enablers[..i + 1][..i] == s.enablers[..i];
        i := i + 1;
      }
      assert s.enablers[..n] == s.enablers;
      enabled := HasEnabled(s.enablers, refs) && s.tstate;
      if enabled {
        if !registered {
          registered := w.registers(j);
        }
      } else {
        registered := false;
      }
      SyncFilterState(s.enablers);
    }

    /** One hit: the probe, which is called when it is registered, with its filter decision. */
    method Hit(accepts: Bytecode -> bool) returns (records: bool)
      ensures records == Records(View(), accepts)
    {
      records := registered && enabled;
      if records && evalFilter {
        records := false;
        var k := 0;
        while k < |runtimes| && !records
          invariant k <= |runtimes|
          invariant records == exists h :: 0 <= h < k && runtimes[h].live && accepts(runtimes[h].bc)
        {
          records := runtimes[k].live && accepts(runtimes[k].bc);
          k := k + 1;
        }
      }
    }
  }
}
