/** Filters on one field, for every comparator: the bytes are linked, and the interpreter
    accepts exactly the events whose value stands in the relation. */
module ExpressionFilters {
  import opened Words
  import opened Opcodes
  import opened Validator
  import opened Fields
  import opened Specializer
  import opened StringCompare
  import opened Interpreter
  import opened Linked
  import opened Programs
  import opened Registers
  import opened Comparisons
  import opened Expressions
  import opened ExpressionLinks
  import opened ExpressionValues
  import opened ExpressionSteps
  import opened ExpressionRuns
  import Glob

  /** field c x */
  function Test(c: CmpOp, sym: nat, x: Leaf): Expr { Compare(c, Atom(Named(false, sym)), Atom(x)) }

  function Filter(e: Expr): seq<byte> { Assemble(Program(e, Return)) }

  /** The name at the offset is that of the k-th field. */
  ghost predicate NamesField(src: Source, sym: nat, k: nat) {
    sym < 0x1_0000 && SymbolAt(src.symtab, sym).Some? && IsLookup(src.fields, SymbolAt(src.symtab, sym).value, k)
  }

  lemma FieldDeclared(src: Source, sym: nat, k: nat)
    requires NamesField(src, sym, k)
    ensures DeclaredAs(src, false, sym) == Some(src.fields[k].ty)
    ensures forall env :: Serves(env, src) ==>
              NameValue(env, src.symtab, false, sym) == FieldValue(src.fields[k].ty, env.slots[k])
  {
    LookupUnique(src.fields, SymbolAt(src.symtab, sym).value, k);
  }

  /** What can stand to the right of a field of a type. */
  ghost predicate Suits(c: CmpOp, x: Leaf, t: RegType, u: RegType) {
    match x
    case Constant(_) => t == S64 && u == S64
    case Quoted(s, glob) =>
      && t == Str && u == (if glob then StarGlob else Str) && (glob ==> c == EQ || c == NE)
      && forall j :: 0 <= j < |s| ==> s[j] != 0
    case _ => false
  }

  lemma TestTyped(symtab: seq<byte>, c: CmpOp, sym: nat, x: Leaf, t: RegType, u: RegType, e: Expr)
    requires sym < 0x1_0000 && SymbolAt(symtab, sym).Some? && Suits(c, x, t, u) && e == Test(c, sym, x)
    ensures Spelled(e) && Depth(e) == 2 && WellTyped(e) && NamesIn(symtab, e) && TypeOf(e) == S64 && Records(e) == 1
  {
  }

  lemma TestResolved(src: Source, c: CmpOp, sym: nat, x: Leaf, t: RegType, u: RegType, op: Op, e: Expr)
    requires LeafType(src, Named(false, sym)) == Some((t, op)) && Suits(c, x, t, u) && e == Test(c, sym, x)
    ensures Resolved(src, e) && Sorted(src, e) && Top(src, e) == S64 && Reach(src, e) == 2
  {
    var l, r := Atom(Named(false, sym)), Atom(x);
    assert Left(src, l) == [Plain(t)] && Left(src, r) == [Plain(u)];
    assert Top(src, l) == t && Top(src, r) == u && Below(src, l, r) == t;
    assert Resolved(src, l) && Resolved(src, r) && Sorted(src, l) && Sorted(src, r);
    assert Picked(c, t, u).Some? && Reach(src, l) == 1 && Reach(src, r) == 1;
    TopOfPair(src, e);
  }

  /** A test of a field against a constant or a text of its class is linked. */
  lemma TestLinks(src: Source, c: CmpOp, sym: nat, k: nat, x: Leaf, t: RegType, u: RegType, op: Op, e: Expr)
    requires NamesField(src, sym, k) && LoadedAs(src.fields[k].ty, false) == Some((t, op))
    requires Suits(c, x, t, u) && e == Test(c, sym, x) && Len(e) < 0x1_0000
    ensures Spelled(e) && Depth(e) == 2 && Sorted(src, e) && Top(src, e) == S64 && IsLinked(Filter(e), src)
  {
    FieldDeclared(src, sym, k);
    TestTyped(src.symtab, c, sym, x, t, u, e);
    TestResolved(src, c, sym, x, t, u, op, e);
    LinkedExactly(src, e, Return);
  }

  lemma TestValue(src: Source, env: Env, c: CmpOp, sym: nat, k: nat, x: Leaf, b: Value, a: Value)
    requires NamesField(src, sym, k) && Serves(env, src) && FieldValue(src.fields[k].ty, env.slots[k]) == Ok(b)
    requires LeafValue(env, src.symtab, x) == Ok(a)
    ensures Eval(env, src.symtab, Test(c, sym, x)) == Compares(c, b, a)
  {
    FieldDeclared(src, sym, k);
    assert Eval(env, src.symtab, Atom(Named(false, sym))) == Ok(b) && Eval(env, src.symtab, Atom(x)) == Ok(a);
  }

  lemma TestRuns(src: Source, env: Env, e: Expr, truth: bool, cells: seq<Cell>, code: seq<byte>)
    requires Spelled(e) && Len(e) < 0x1_0000 && Depth(e) == 2 && Sorted(src, e) && Top(src, e) == S64
    requires code == Filter(e) && IsLinked(code, src) && Serves(env, src) && |cells| == STACK_LEN
    requires Eval(env, src.symtab, e) == Ok(Truth(truth)) && env.gids == FinalGids(code, src)
    ensures RegRun(env, FinalCode(code, src), 0, RegInit(cells)) == if truth then Accept else Reject
  {
    ExpressionMeaning(src, e, Return, env, cells, code);
  }

  /** An integer field against a constant. */
  lemma IntegerFilter(src: Source, env: Env, c: CmpOp, sym: nat, k: nat, n: word, w: word, cells: seq<Cell>)
    requires NamesField(src, sym, k) && src.fields[k].ty.Integer? && |cells| == STACK_LEN
    requires Serves(env, src) && env.slots[k] == IntSlot(n)
    ensures var code := Filter(Test(c, sym, Constant(w)));
            && IsLinked(code, src)
            && (env.gids == FinalGids(code, src) ==>
                  RegRun(env, FinalCode(code, src), 0, RegInit(cells)) ==
                  if Related(c, Signed(n), Signed(w)) then Accept else Reject)
  {
    var e, op := Test(c, sym, Constant(w)), LoadedAs(src.fields[k].ty, false).value.1;
    TestLinks(src, c, sym, k, Constant(w), S64, S64, op, e);
    TestValue(src, env, c, sym, k, Constant(w), VInt(n), VInt(w));
    if env.gids == FinalGids(Filter(e), src) {
      TestRuns(src, env, e, Related(c, Signed(n), Signed(w)), cells, Filter(e));
    }
  }

  /** A text as a reader of the field sees it. */
  function Seen(t: seq<byte>): Reading { Reading(Glob.Cut(t), false) }

  lemma SeenReading(t: seq<byte>, s: seq<byte>)
    requires forall j :: 0 <= j < |s| ==> s[j] != 0
    ensures ReadingOf(StrReg(t, NotLiteral), 0) == Seen(t)
    ensures ReadingOf(StrReg(s, PlainLiteral), 0) == ReadLiteral(s)
    ensures StrCmp(StrReg(t, NotLiteral), StrReg(s, PlainLiteral)).Some?
  {
    CutWhole(s);
    assert Rest(t, 0) == Glob.Cut(t) && Rest(s, 0) == s;
    OverreadExactly(StrReg(t, NotLiteral), 0, StrReg(s, PlainLiteral), 0);
  }

  lemma TextCompares(c: CmpOp, t: seq<byte>, s: seq<byte>)
    requires forall j :: 0 <= j < |s| ==> s[j] != 0
    ensures Compares(c, VStr(StrReg(t, NotLiteral)), VStr(StrReg(s, PlainLiteral))) ==
            Ok(Truth(TextRelated(c, Seen(t), ReadLiteral(s))))
  {
    SeenReading(t, s);
  }

  lemma PatternCompares(c: CmpOp, t: seq<byte>, p: seq<byte>)
    requires (forall j :: 0 <= j < |p| ==> p[j] != 0) && (c == EQ || c == NE) && !Glob.EndsWithTwoStars(p)
    ensures Compares(c, VStr(StrReg(t, NotLiteral)), VStr(StrReg(p, GlobLiteral))) ==
            Ok(Truth(Glob.Matches(p, Glob.Cut(t)) == (c == EQ)))
  {
    CutWhole(p);
  }

  /** A text field against a text in quotes. */
  lemma TextFilter(src: Source, env: Env, c: CmpOp, sym: nat, k: nat, t: seq<byte>, s: seq<byte>, cells: seq<Cell>)
    requires NamesField(src, sym, k) && src.fields[k].ty.StringT? && |cells| == STACK_LEN
    requires Len(Test(c, sym, Quoted(s, false))) < 0x1_0000 && forall j :: 0 <= j < |s| ==> s[j] != 0
    requires Serves(env, src) && env.slots[k] == StrSlot(Some(t))
    ensures var code := Filter(Test(c, sym, Quoted(s, false)));
            && IsLinked(code, src)
            && (env.gids == FinalGids(code, src) ==>
                  RegRun(env, FinalCode(code, src), 0, RegInit(cells)) ==
                  if TextRelated(c, Seen(t), ReadLiteral(s)) then Accept else Reject)
  {
    var e := Test(c, sym, Quoted(s, false));
    TestLinks(src, c, sym, k, Quoted(s, false), Str, Str, LoadTyped(StringObj), e);
    TestValue(src, env, c, sym, k, Quoted(s, false), VStr(StrReg(t, NotLiteral)), VStr(StrReg(s, PlainLiteral)));
    TextCompares(c, t, s);
    if env.gids == FinalGids(Filter(e), src) {
      TestRuns(src, env, e, TextRelated(c, Seen(t), ReadLiteral(s)), cells, Filter(e));
    }
  }

  /** A text field against a pattern. */
  lemma PatternFilter(src: Source, env: Env, c: CmpOp, sym: nat, k: nat, t: seq<byte>, p: seq<byte>, cells: seq<Cell>)
    requires NamesField(src, sym, k) && src.fields[k].ty.StringT? && |cells| == STACK_LEN && (c == EQ || c == NE)
    requires Len(Test(c, sym, Quoted(p, true))) < 0x1_0000 && forall j :: 0 <= j < |p| ==> p[j] != 0
    requires !Glob.EndsWithTwoStars(p) && Serves(env, src) && env.slots[k] == StrSlot(Some(t))
    ensures var code := Filter(Test(c, sym, Quoted(p, true)));
            && IsLinked(code, src)
            && (env.gids == FinalGids(code, src) ==>
                  RegRun(env, FinalCode(code, src), 0, RegInit(cells)) ==
                  if Glob.Matches(p, Glob.Cut(t)) == (c == EQ) then Accept else Reject)
  {
    var e := Test(c, sym, Quoted(p, true));
    TestLinks(src, c, sym, k, Quoted(p, true), Str, StarGlob, LoadTyped(StringObj), e);
    TestValue(src, env, c, sym, k, Quoted(p, true), VStr(StrReg(t, NotLiteral)), VStr(StrReg(p, GlobLiteral)));
    PatternCompares(c, t, p);
    if env.gids == FinalGids(Filter(e), src) {
      TestRuns(src, env, e, Glob.Matches(p, Glob.Cut(t)) == (c == EQ), cells, Filter(e));
    }
  }

  /** AND and OR are those of logic, and leave their second operand alone when the first decides. */
  lemma LogicTruth(env: Env, symtab: seq<byte>, isOr: bool, l: Expr, r: Expr)
    requires env.Valid() && Eval(env, symtab, l).Ok? && Eval(env, symtab, l).value.VInt?
    ensures var b, a, x := Eval(env, symtab, l), Eval(env, symtab, r), Eval(env, symtab, Logic(isOr, l, r));
            && (a.Ok? && a.value.VInt? ==>
                  && x.Ok? && x.value.VInt?
                  && (x.value.v != 0 <==>
                        if isOr then b.value.v != 0 || a.value.v != 0 else b.value.v != 0 && a.value.v != 0))
            && ((b.value.v != 0) == isOr ==> x == Ok(Truth(isOr)))
  {
  }
}
