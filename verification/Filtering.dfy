/** Filtering from end to end: what enablers ask of an event, said by the reference semantics of
    their programs. */
module Filtering {
  import opened Words
  import opened Validator
  import opened Specializer
  import opened Interpreter
  import opened Linked
  import opened Preservation
  import opened Registers
  import opened RegisterRuns
  import FilterSync

  /** The bytes of a program and what it is linked against for the event at hand. */
  datatype Program = Program(code: seq<byte>, src: Source)

  ghost predicate Links(p: Program) { IsLinked(p.code, p.src) }

  /** The event as the linked program finds it. */
  ghost function EnvFor(p: Program, env: Env): Env
    requires Links(p)
  {
    env.(gids := FinalGids(p.code, p.src))
  }

  /** The outcome of the program as it was written. */
  ghost predicate Accepts(p: Program, env: Env)
    requires Links(p) && env.Valid()
  {
    RefRun(EnvFor(p, env), p.code, p.src.symtab, RState(0, [])) == Accept
  }

  /** The programs are those of the event, keep their meaning, and decide as they run. */
  ghost predicate Decides(w: FilterSync.World, j: nat, program: FilterSync.Bytecode -> Program, env: Env,
                          accepts: FilterSync.Bytecode -> bool)
  {
    && env.Valid()
    && forall bc ::
         && (w.links(bc, j) <==> Links(program(bc)))
         && (Links(program(bc)) ==> DecidesOne(program(bc), env, accepts(bc)))
  }

  /** The decision is that of the interpreter, whatever its fresh array holds, on a program that
      keeps its meaning and stays inside the event. */
  ghost predicate DecidesOne(p: Program, env: Env, accepted: bool)
    requires Links(p) && env.Valid()
  {
    && p.src.fields == env.fields && p.src.ctx == env.ctx && Specializable(p.code, p.src) && Cacheable(p.code, p.src)
    && RefRun(EnvFor(p, env), p.code, p.src.symtab, RState(0, [])) != Wild
    && exists e: seq<Cell> :: |e| == STACK_LEN && Interpreted(p, env, e, accepted)
  }

  ghost predicate Interpreted(p: Program, env: Env, e: seq<Cell>, accepted: bool)
    requires Links(p) && env.Valid() && |e| == STACK_LEN
  {
    accepted == (RegRun(EnvFor(p, env), FinalCode(p.code, p.src), 0, RegInit(e)) == Accept)
  }

  ghost predicate AsksFor(w: FilterSync.World, s: FilterSync.Session, j: nat, program: FilterSync.Bytecode -> Program,
                          env: Env, i: nat)
    requires env.Valid()
  {
    && i < |s.enablers| && s.enablers[i].enabled && w.matches(i, j)
    && (s.enablers[i].bytecodes == [] ||
        exists bc :: bc in s.enablers[i].bytecodes && Links(program(bc)) && Accepts(program(bc), env))
  }

  lemma RunIsMeaning(p: Program, env: Env, accepted: bool)
    requires Links(p) && env.Valid() && DecidesOne(p, env, accepted)
    ensures accepted <==> Accepts(p, env)
  {
    var e: seq<Cell> :| |e| == STACK_LEN && Interpreted(p, env, e, accepted);
    RegistersPreserveMeaning(p.code, p.src, EnvFor(p, env), e);
  }

  lemma WantedIsAskedFor(w: FilterSync.World, s: FilterSync.Session, j: nat, program: FilterSync.Bytecode -> Program,
                         env: Env, accepts: FilterSync.Bytecode -> bool, i: nat)
    requires Decides(w, j, program, env, accepts)
    ensures FilterSync.Wanted(w, s, j, accepts, i) <==> AsksFor(w, s, j, program, env, i)
  {
    forall bc | Links(program(bc)) ensures accepts(bc) <==> Accepts(program(bc), env) {
      RunIsMeaning(program(bc), env, accepts(bc));
    }
  }

  /** After any run of enabling, attaching and synchronising that ends with a synchronisation, a
      hit of the event is recorded exactly when session and channel are active, its probe can be
      registered, and some enabled matching enabler has no filter, or a linked program that accepts
      the event as written. */
  lemma HitsAreFilteredByMeaning(w: FilterSync.World, ops: seq<FilterSync.Op>, j: nat,
                                 program: FilterSync.Bytecode -> Program, env: Env,
                                 accepts: FilterSync.Bytecode -> bool)
    requires ops != [] && ops[|ops| - 1] == FilterSync.Sync && j < |FilterSync.Run(w, ops).events|
    requires Decides(w, j, program, env, accepts)
    ensures var s := FilterSync.Run(w, ops);
            FilterSync.Records(s.events[j], accepts) <==>
              s.tstate && w.registers(j) && exists i :: AsksFor(w, s, j, program, env, i)
  {
    var s := FilterSync.Run(w, ops);
    FilterSync.FilterMeaning(w, ops, j, accepts);
    forall i ensures FilterSync.Wanted(w, s, j, accepts, i) <==> AsksFor(w, s, j, program, env, i) {
      WantedIsAskedFor(w, s, j, program, env, accepts, i);
    }
  }
}
