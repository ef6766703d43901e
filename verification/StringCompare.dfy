/** String comparison of the interpreter: stack_strcmp with its escapes and its wildcard in
    plain literals. */
module StringCompare {
  import opened Words
  import opened Opcodes
  import opened Glob

  datatype Literal = NotLiteral | PlainLiteral | GlobLiteral

  /** A string register: the bytes its reader may see, and how it was loaded. */
  datatype StrReg = StrReg(data: seq<byte>, lit: Literal)

  function GetChar(r: StrReg, off: nat): byte {
    if off >= |r.data| then 0 else r.data[off]
  }

  datatype Parsed = Wildcard | BadEscape(c: byte, off: nat) | Normal(c: byte, off: nat)

  /** parse_char on the character at off. */
  function ParseChar(r: StrReg, off: nat): Parsed {
    var c := GetChar(r, off);
    if c == BACKSLASH then
      var e := GetChar(r, off + 1);
      if e == BACKSLASH || e == STAR then Normal(e, off + 1) else BadEscape(e, off + 1)
    else if c == STAR then Wildcard
    else Normal(c, off)
  }

  /** The character a register contributes: parsed for plain literals, itself otherwise. */
  function NextChar(r: StrReg, off: nat): Parsed {
    if r.lit.PlainLiteral? then ParseChar(r, off) else Normal(GetChar(r, off), off)
  }

  /** What one turn of the comparison decides. */
  function Decide(b: StrReg, bo: nat, a: StrReg, ao: nat): Option<int> {
    var cb, ca := GetChar(b, bo), GetChar(a, ao);
    if cb == 0 && ca == 0 then Some(0)
    else if cb == 0 then Some(if NextChar(a, ao).Wildcard? then 0 else -1)
    else if ca == 0 then Some(if NextChar(b, bo).Wildcard? then 0 else 1)
    else
      var pb, pa := NextChar(b, bo), NextChar(a, ao);
      if pb.Wildcard? || pa.Wildcard? then Some(0)
      else if pa.BadEscape? && !pb.BadEscape? then Some(-1)
      else if pb.BadEscape? && !pa.BadEscape? then Some(1)
      else if pb.c != pa.c then Some(pb.c - pa.c)
      else None
  }

  /** The value of the comparison from two offsets on. None stands for going on behind the
      terminators, where the source reads what happens to follow the two literals. */
  function StrCmpFrom(b: StrReg, bo: nat, a: StrReg, ao: nat): Option<int>
    decreases |b.data| - bo
  {
    match Decide(b, bo, a, ao)
    case Some(d) => Some(d)
    case None =>
      if NextChar(b, bo).c == 0 then None
      else StrCmpFrom(b, NextChar(b, bo).off + 1, a, NextChar(a, ao).off + 1)
  }

  function StrCmp(b: StrReg, a: StrReg): Option<int> { StrCmpFrom(b, 0, a, 0) }

  /** stack_strcmp: the branches in the order of the source, up to a read behind the terminators. */
  method StackStrcmp(b: StrReg, a: StrReg) returns (r: Option<int>)
    ensures r == StrCmp(b, a)
  {
    var bo: nat, ao: nat := 0, 0;
    while true
      invariant StrCmpFrom(b, bo, a, ao) == StrCmp(b, a)
      decreases |b.data| - bo
    {
      var escapedR0 := false;
      var cb: int, ca: int := GetChar(b, bo), GetChar(a, ao);
      if cb == 0 {
        if ca == 0 {
          return Some(0);
        }
        if a.lit.PlainLiteral? && ParseChar(a, ao).Wildcard? {
          return Some(0);
        }
        return Some(-1);
      }
      if ca == 0 {
        if b.lit.PlainLiteral? && ParseChar(b, bo).Wildcard? {
          return Some(0);
        }
        return Some(1);
      }
      if b.lit.PlainLiteral? {
        var p := ParseChar(b, bo);
        if p.Wildcard? {
          return Some(0);
        }
        escapedR0 := p.BadEscape?;
        cb, bo := p.c, p.off;
      }
      if a.lit.PlainLiteral? {
        var p := ParseChar(a, ao);
        if p.Wildcard? {
          return Some(0);
        }
        if p.BadEscape? && !escapedR0 {
          return Some(-1);
        }
        if !p.BadEscape? && escapedR0 {
          return Some(1);
        }
        ca, ao := p.c, p.off;
      } else if escapedR0 {
        return Some(1);
      }
      if cb != ca {
        return Some(cb - ca);
      }
      if cb == 0 {
        return None;
      }
      bo, ao := bo + 1, ao + 1;
    }
  }

  /** Strict lexicographic order. */
  ghost predicate LexLess(x: seq<int>, y: seq<int>) {
    exists k :: 0 <= k <= |x| && k <= |y| && LexLessAt(x, y, k)
  }

  ghost predicate LexLessAt(x: seq<int>, y: seq<int>, k: nat)
    requires k <= |x| && k <= |y|
  {
    x[..k] == y[..k] && k < |y| && (k == |x| || x[k] < y[k])
  }

  lemma LexTail(x: seq<int>, y: seq<int>)
    requires x != [] && y != [] && x[0] == y[0]
    ensures LexLess(x, y) == LexLess(x[1..], y[1..])
  {
    if LexLess(x, y) {
      var k :| 0 <= k <= |x| && k <= |y| && LexLessAt(x, y, k);
      assert k > 0;
      assert x[1..][..k - 1] == x[..k][1..];
      assert y[1..][..k - 1] == y[..k][1..];
      assert LexLessAt(x[1..], y[1..], k - 1);
    }
    if LexLess(x[1..], y[1..]) {
      var k :| 0 <= k <= |x[1..]| && k <= |y[1..]| && LexLessAt(x[1..], y[1..], k);
      assert x[..k + 1] == [x[0]] + x[1..][..k];
      assert y[..k + 1] == [y[0]] + y[1..][..k];
      assert LexLessAt(x, y, k + 1);
    }
  }

  lemma LexHead(x: seq<int>, y: seq<int>)
    requires x == [] || y == [] || x[0] != y[0]
    ensures LexLess(x, y) <==> y != [] && (x == [] || x[0] < y[0])
  {
    if y != [] && (x == [] || x[0] < y[0]) {
      assert LexLessAt(x, y, 0);
    }
    if LexLess(x, y) {
      var k :| 0 <= k <= |x| && k <= |y| && LexLessAt(x, y, k);
      assert k == 0;
    }
  }

  /** What is left of a string at an offset not beyond its terminator. */
  function Rest(s: seq<byte>, off: nat): seq<byte>
    requires off <= StrLen(s)
  {
    Cut(s)[off..]
  }

  lemma RestStep(r: StrReg, off: nat)
    requires off <= StrLen(r.data)
    ensures GetChar(r, off) == 0 <==> Rest(r.data, off) == []
    ensures GetChar(r, off) != 0 ==>
              && off + 1 <= StrLen(r.data)
              && Rest(r.data, off)[0] == GetChar(r, off) && Rest(r.data, off + 1) == Rest(r.data, off)[1..]
  {
    assert GetChar(r, off) == CharAt(r.data, off);
  }

  /** The sign of d is the lexicographic order of x and y. */
  ghost predicate Orders(d: int, x: seq<int>, y: seq<int>) {
    (d == 0 <==> x == y) && (d < 0 <==> LexLess(x, y)) && (d > 0 <==> LexLess(y, x))
  }

  lemma OrdersTail(d: int, x: seq<int>, y: seq<int>)
    requires x != [] && y != [] && x[0] == y[0] && Orders(d, x[1..], y[1..])
    ensures Orders(d, x, y)
  {
    LexTail(x, y);
    LexTail(y, x);
    assert x == [x[0]] + x[1..] && y == [y[0]] + y[1..];
  }

  lemma OrdersHead(d: int, x: seq<int>, y: seq<int>)
    requires if x == [] then (if y == [] then d == 0 else d < 0)
             else if y == [] then d > 0 else d != 0 && d + y[0] == x[0]
    ensures Orders(d, x, y)
  {
    LexHead(x, y);
    LexHead(y, x);
  }

  /** Between two strings that are not plain literals the comparison is lexicographic. */
  lemma {:induction false} StrCmpIsLexicographic(b: StrReg, bo: nat, a: StrReg, ao: nat)
    requires !b.lit.PlainLiteral? && !a.lit.PlainLiteral?
    requires bo <= StrLen(b.data) && ao <= StrLen(a.data)
    ensures var d := StrCmpFrom(b, bo, a, ao); d.Some? && Orders(d.value, Rest(b.data, bo), Rest(a.data, ao))
    decreases |b.data| - bo
  {
    RestStep(b, bo);
    RestStep(a, ao);
    var x, y := Rest(b.data, bo), Rest(a.data, ao);
    if x != [] && y != [] && x[0] == y[0] {
      StrCmpIsLexicographic(b, bo + 1, a, ao + 1);
      OrdersTail(StrCmpFrom(b, bo + 1, a, ao + 1).value, x, y);
    } else {
      OrdersHead(StrCmpFrom(b, bo, a, ao).value, x, y);
    }
  }

  /** What a plain literal asks of the string it is compared with. */
  datatype Demand = Exactly(text: seq<byte>) | StartsWith(text: seq<byte>) | Never

  function Cons(c: byte, d: Demand): Demand {
    match d
    case Exactly(t) => Exactly([c] + t)
    case StartsWith(t) => StartsWith([c] + t)
    case Never => Never
  }

  /** The literal unescaped up to its first unescaped star; an escape of any other character
      makes it unmatchable. */
  function DemandOf(l: seq<byte>): Demand {
    if l == [] then Exactly([])
    else if l[0] == STAR then StartsWith([])
    else if l[0] == BACKSLASH then
      if |l| >= 2 && (l[1] == BACKSLASH || l[1] == STAR) then Cons(l[1], DemandOf(l[2..])) else Never
    else Cons(l[0], DemandOf(l[1..]))
  }

  predicate Meets(x: seq<byte>, d: Demand) {
    match d
    case Exactly(t) => x == t
    case StartsWith(t) => t <= x
    case Never => false
  }

  lemma MeetsCons(x: seq<byte>, c: byte, d: Demand)
    ensures Meets(x, Cons(c, d)) <==> x != [] && x[0] == c && Meets(x[1..], d)
  {
    if x != [] && x[0] == c {
      assert x == [c] + x[1..];
      if d.StartsWith? {
        assert d.text <= x[1..] <==> [c] + d.text <= x by {
          if [c] + d.text <= x {
            assert ([c] + d.text)[1..] == d.text && x[1..][..|d.text|] == x[..|d.text| + 1][1..];
          }
        }
      }
    }
  }

  /** One parsed character of a literal is one step of its demand. */
  lemma DemandStep(l: StrReg, off: nat)
    requires l.lit.PlainLiteral? && off <= StrLen(l.data) && GetChar(l, off) != 0
    ensures var p, t := ParseChar(l, off), Rest(l.data, off);
            match p
            case Wildcard => DemandOf(t) == StartsWith([])
            case BadEscape(_, _) => DemandOf(t) == Never
            case Normal(c, o) =>
              o + 1 <= StrLen(l.data) && c != 0 && DemandOf(t) == Cons(c, DemandOf(Rest(l.data, o + 1)))
  {
    RestStep(l, off);
    RestStep(l, off + 1);
    var t := Rest(l.data, off);
    assert |t| >= 2 ==> t[1] == GetChar(l, off + 1);
    if GetChar(l, off + 1) != 0 {
      assert t[2..] == Rest(l.data, off + 2);
    }
  }

  /** When one turn against a literal ends the comparison with zero, and when it goes on. */
  lemma LiteralTurn(f: StrReg, fo: nat, l: StrReg, lo: nat)
    requires !f.lit.PlainLiteral? && l.lit.PlainLiteral?
    ensures var p, cf, cl := ParseChar(l, lo), GetChar(f, fo), GetChar(l, lo);
            && (Decide(f, fo, l, lo) == Some(0) <==> if cl == 0 then cf == 0 else p.Wildcard?)
            && (Decide(l, lo, f, fo) == Some(0) <==> if cl == 0 then cf == 0 else p.Wildcard?)
            && (Decide(f, fo, l, lo) == None <==> cl != 0 && cf != 0 && p.Normal? && p.c == cf)
            && (Decide(l, lo, f, fo) == None <==> cl != 0 && cf != 0 && p.Normal? && p.c == cf)
  {
  }

  /** The demand of a literal, turn by turn. */
  lemma DemandTurn(f: StrReg, fo: nat, l: StrReg, lo: nat)
    requires l.lit.PlainLiteral? && fo <= StrLen(f.data) && lo <= StrLen(l.data)
    ensures var p, cf, cl := ParseChar(l, lo), GetChar(f, fo), GetChar(l, lo);
            Meets(Rest(f.data, fo), DemandOf(Rest(l.data, lo))) <==>
              if cl == 0 then cf == 0
              else if p.Wildcard? then true
              else p.Normal? && cf != 0 && p.c == cf && fo + 1 <= StrLen(f.data) && p.off + 1 <= StrLen(l.data)
                   && Meets(Rest(f.data, fo + 1), DemandOf(Rest(l.data, p.off + 1)))
  {
    RestStep(f, fo);
    RestStep(l, lo);
    if GetChar(l, lo) != 0 {
      DemandStep(l, lo);
      var p := ParseChar(l, lo);
      if p.Normal? {
        MeetsCons(Rest(f.data, fo), p.c, DemandOf(Rest(l.data, p.off + 1)));
      }
    }
  }

  /** A field compared with a plain literal gives zero exactly when it is the unescaped
      literal, or starts with the text before the literal's first unescaped star. */
  lemma {:induction false} LiteralOnTop(f: StrReg, fo: nat, l: StrReg, lo: nat)
    requires !f.lit.PlainLiteral? && l.lit.PlainLiteral?
    requires fo <= StrLen(f.data) && lo <= StrLen(l.data)
    ensures StrCmpFrom(f, fo, l, lo).Some?
    ensures StrCmpFrom(f, fo, l, lo) == Some(0) <==> Meets(Rest(f.data, fo), DemandOf(Rest(l.data, lo)))
    decreases |f.data| - fo
  {
    LiteralTurn(f, fo, l, lo);
    DemandTurn(f, fo, l, lo);
    if Decide(f, fo, l, lo).None? {
      RestStep(f, fo);
      DemandStep(l, lo);
      LiteralOnTop(f, fo + 1, l, ParseChar(l, lo).off + 1);
    }
  }

  /** The same with the literal as the first operand. */
  lemma {:induction false} LiteralBelow(l: StrReg, lo: nat, f: StrReg, fo: nat)
    requires !f.lit.PlainLiteral? && l.lit.PlainLiteral?
    requires fo <= StrLen(f.data) && lo <= StrLen(l.data)
    ensures StrCmpFrom(l, lo, f, fo).Some?
    ensures StrCmpFrom(l, lo, f, fo) == Some(0) <==> Meets(Rest(f.data, fo), DemandOf(Rest(l.data, lo)))
    decreases |f.data| - fo
  {
    LiteralTurn(f, fo, l, lo);
    DemandTurn(f, fo, l, lo);
    if Decide(l, lo, f, fo).None? {
      RestStep(f, fo);
      DemandStep(l, lo);
      LiteralBelow(l, ParseChar(l, lo).off + 1, f, fo + 1);
    }
  }

  // Staying inside both strings

  /** A parsed character of a literal, or an escape of any other character. */
  datatype Mark = Char(c: byte) | Escape(c: byte)

  /** The parsed characters of a literal that ends with a lone backslash, before any unescaped
      star. */
  function Marks(l: seq<byte>): Option<seq<Mark>> {
    if l == [] || l[0] == STAR then None
    else if l[0] == BACKSLASH then
      if |l| == 1 then Some([])
      else Prefixed(if l[1] == BACKSLASH || l[1] == STAR then Char(l[1]) else Escape(l[1]), Marks(l[2..]))
    else Prefixed(Char(l[0]), Marks(l[1..]))
  }

  function Prefixed(m: Mark, ms: Option<seq<Mark>>): Option<seq<Mark>> {
    if ms.None? then None else Some([m] + ms.value)
  }

  lemma PrefixedIsInjective(m: Mark, ms: Option<seq<Mark>>, m': Mark, ms': Option<seq<Mark>>)
    requires ms.Some?
    ensures Prefixed(m, ms) == Prefixed(m', ms') <==> m == m' && ms == ms'
  {
    if ms'.Some? && Prefixed(m, ms) == Prefixed(m', ms') {
      assert ([m] + ms.value)[0] == ([m'] + ms'.value)[0];
      assert ms.value == ([m] + ms.value)[1..] == ([m'] + ms'.value)[1..] == ms'.value;
    }
  }

  /** The mark of a parsed character, or of an invalid escape that is not at the end. */
  function MarkOf(p: Parsed): Mark
    requires !p.Wildcard?
  {
    if p.BadEscape? then Escape(p.c) else Char(p.c)
  }

  lemma MarksStep(l: StrReg, off: nat)
    requires l.lit.PlainLiteral? && off <= StrLen(l.data) && GetChar(l, off) != 0
    ensures var p, t := ParseChar(l, off), Rest(l.data, off);
            if p.Wildcard? then Marks(t).None?
            else if p.c == 0 then p.BadEscape? && Marks(t) == Some([])
            else p.off + 1 <= StrLen(l.data) && Marks(t) == Prefixed(MarkOf(p), Marks(Rest(l.data, p.off + 1)))
  {
    RestStep(l, off);
    RestStep(l, off + 1);
    var t := Rest(l.data, off);
    assert |t| >= 2 ==> t[1] == GetChar(l, off + 1);
    if GetChar(l, off + 1) != 0 {
      assert t[2..] == Rest(l.data, off + 2);
    }
  }

  /** Two literals read alike up to a lone backslash at the end of each. */
  ghost predicate DangleAlike(x: seq<byte>, y: seq<byte>) { Marks(x).Some? && Marks(x) == Marks(y) }

  /** The marks before a parsed character, given those after it. */
  function MarksBefore(p: Parsed, after: Option<seq<Mark>>): Option<seq<Mark>> {
    if p.Wildcard? then None else if p.c == 0 then Some([]) else Prefixed(MarkOf(p), after)
  }

  lemma MarksMatch(p: Parsed, after: Option<seq<Mark>>, p': Parsed, after': Option<seq<Mark>>)
    requires !p.Wildcard? && p.c == 0 ==> p.BadEscape?
    requires !p'.Wildcard? && p'.c == 0 ==> p'.BadEscape?
    ensures MarksBefore(p, after).Some? && MarksBefore(p, after) == MarksBefore(p', after') <==>
              && !p.Wildcard? && !p'.Wildcard? && p.BadEscape? == p'.BadEscape? && p.c == p'.c
              && (p.c == 0 || (after.Some? && after == after'))
  {
    if !p.Wildcard? && !p'.Wildcard? && after.Some? {
      PrefixedIsInjective(MarkOf(p), after, MarkOf(p'), after');
    }
  }

  /** One turn between two plain literals. */
  lemma DangleTurn(b: StrReg, bo: nat, a: StrReg, ao: nat)
    requires b.lit.PlainLiteral? && a.lit.PlainLiteral? && bo <= StrLen(b.data) && ao <= StrLen(a.data)
    ensures var p, q := ParseChar(b, bo), ParseChar(a, ao);
            DangleAlike(Rest(b.data, bo), Rest(a.data, ao)) <==>
              && Decide(b, bo, a, ao).None?
              && (p.c == 0 || (&& p.off + 1 <= StrLen(b.data) && q.off + 1 <= StrLen(a.data)
                               && DangleAlike(Rest(b.data, p.off + 1), Rest(a.data, q.off + 1))))
  {
    RestStep(b, bo);
    RestStep(a, ao);
    if GetChar(b, bo) != 0 && GetChar(a, ao) != 0 {
      MarksStep(b, bo);
      MarksStep(a, ao);
      var p, q := ParseChar(b, bo), ParseChar(a, ao);
      var after := if !p.Wildcard? && p.c != 0 then Marks(Rest(b.data, p.off + 1)) else None;
      var after' := if !q.Wildcard? && q.c != 0 then Marks(Rest(a.data, q.off + 1)) else None;
      MarksMatch(p, after, q, after');
    }
  }

  /** Where the comparison goes on, it goes on inside both strings. */
  lemma NextInside(r: StrReg, off: nat)
    requires off <= StrLen(r.data) && GetChar(r, off) != 0 && !NextChar(r, off).Wildcard? && NextChar(r, off).c != 0
    ensures NextChar(r, off).off + 1 <= StrLen(r.data)
  {
    RestStep(r, off);
    if r.lit.PlainLiteral? {
      MarksStep(r, off);
    }
  }

  /** The comparison goes on behind the terminators exactly when both operands are plain literals
      that read alike up to a lone backslash at the end of each. */
  lemma {:induction false} OverreadExactly(b: StrReg, bo: nat, a: StrReg, ao: nat)
    requires bo <= StrLen(b.data) && ao <= StrLen(a.data)
    ensures StrCmpFrom(b, bo, a, ao).None? <==>
              b.lit.PlainLiteral? && a.lit.PlainLiteral? && DangleAlike(Rest(b.data, bo), Rest(a.data, ao))
    decreases |b.data| - bo
  {
    if b.lit.PlainLiteral? && a.lit.PlainLiteral? {
      DangleTurn(b, bo, a, ao);
    }
    if Decide(b, bo, a, ao).None? && NextChar(b, bo).c != 0 {
      NextInside(b, bo);
      NextInside(a, ao);
      OverreadExactly(b, NextChar(b, bo).off + 1, a, NextChar(a, ao).off + 1);
    }
  }

  lemma CutWhole(s: seq<byte>)
    requires forall k :: 0 <= k < |s| ==> s[k] != 0
    ensures Cut(s) == s
  {
    assert StrLen(s) == |s|;
  }

  lemma DanglingOrder(s: seq<byte>, t: seq<byte>)
    requires (forall k :: 0 <= k < |s| ==> s[k] != 0) && forall k :: 0 <= k < |t| ==> t[k] != 0
    requires DangleAlike(s, t)
    ensures StrCmp(StrReg(s, PlainLiteral), StrReg(t, PlainLiteral)) == None
  {
    CutWhole(s);
    CutWhole(t);
    OverreadExactly(StrReg(s, PlainLiteral), 0, StrReg(t, PlainLiteral), 0);
  }

  // The order of any two operands

  /** An operand as the comparison reads it, up to its first unescaped star: its characters, with
      an escape of any other character above all characters. */
  datatype Reading = Reading(text: seq<int>, star: bool)

  const ESCAPE: int := 256

  function More(c: int, r: Reading): Reading { Reading([c] + r.text, r.star) }

  function ReadLiteral(l: seq<byte>): Reading {
    if l == [] then Reading([], false)
    else if l[0] == STAR then Reading([], true)
    else if l[0] != BACKSLASH then More(l[0], ReadLiteral(l[1..]))
    else if |l| == 1 then Reading([ESCAPE], false)
    else More(if l[1] == BACKSLASH || l[1] == STAR then l[1] else ESCAPE + l[1], ReadLiteral(l[2..]))
  }

  function ReadingOf(r: StrReg, off: nat): Reading
    requires off <= StrLen(r.data)
  {
    if r.lit.PlainLiteral? then ReadLiteral(Rest(r.data, off)) else Reading(Rest(r.data, off), false)
  }

  /** A literal with valid escapes reads as its unescaped text. */
  lemma {:induction false} ReadingIsDemand(l: seq<byte>)
    ensures match DemandOf(l)
            case Exactly(t) => ReadLiteral(l) == Reading(t, false)
            case StartsWith(t) => ReadLiteral(l) == Reading(t, true)
            case Never => exists k :: 0 <= k < |ReadLiteral(l).text| && ReadLiteral(l).text[k] >= ESCAPE
  {
    if l != [] && l[0] != STAR {
      var n := if l[0] != BACKSLASH then 1 else 2;
      if n <= |l| {
        ReadingIsDemand(l[n..]);
        var rest := ReadLiteral(l[n..]).text;
        if DemandOf(l[n..]).Never? {
          var k :| 0 <= k < |rest| && rest[k] >= ESCAPE;
          assert ReadLiteral(l).text[k + 1] >= ESCAPE;
        }
      }
      assert DemandOf(l).Never? && ReadLiteral(l).text[0] < ESCAPE ==> n <= |l| && DemandOf(l[n..]).Never?;
    }
  }

  /** The value of a parsed character in a reading. */
  function Weight(p: Parsed): int
    requires !p.Wildcard?
  {
    if p.BadEscape? then ESCAPE + p.c else p.c
  }

  /** One character of an operand is one of its reading. */
  lemma ReadingStep(r: StrReg, off: nat)
    requires off <= StrLen(r.data)
    ensures var p, x := NextChar(r, off), ReadingOf(r, off);
            if GetChar(r, off) == 0 then x == Reading([], false)
            else if p.Wildcard? then x == Reading([], true)
            else if p.c == 0 then p.BadEscape? && x == Reading([ESCAPE], false)
            else p.off + 1 <= StrLen(r.data) && x == More(Weight(p), ReadingOf(r, p.off + 1))
  {
    RestStep(r, off);
    if r.lit.PlainLiteral? && GetChar(r, off) != 0 {
      RestStep(r, off + 1);
      var t := Rest(r.data, off);
      assert |t| >= 2 ==> t[1] == GetChar(r, off + 1);
      if GetChar(r, off + 1) != 0 {
        assert t[2..] == Rest(r.data, off + 2);
      }
    }
  }

  /** The sign that two readings call for: zero when a star ends the one as a prefix of the other,
      and the lexicographic order of the texts otherwise. */
  ghost predicate Signs(d: int, x: Reading, y: Reading) {
    if (x.star && x.text <= y.text) || (y.star && y.text <= x.text) then d == 0 else Orders(d, x.text, y.text)
  }

  lemma SignsTail(d: int, c: int, x: Reading, y: Reading)
    requires Signs(d, x, y)
    ensures Signs(d, More(c, x), More(c, y))
  {
    var u, v := [c] + x.text, [c] + y.text;
    assert u[1..] == x.text && v[1..] == y.text;
    PrefixTail(u, v);
    PrefixTail(v, u);
    if !((x.star && x.text <= y.text) || (y.star && y.text <= x.text)) {
      OrdersTail(d, u, v);
    }
  }

  lemma PrefixTail(u: seq<int>, v: seq<int>)
    requires u != [] && v != [] && u[0] == v[0]
    ensures u <= v <==> u[1..] <= v[1..]
  {
    if u[1..] <= v[1..] {
      assert u == [u[0]] + u[1..] && v == [v[0]] + v[1..];
    }
    if u <= v {
      assert u[1..] == v[1..][..|u| - 1];
    }
  }

  /** Readings that differ at once. */
  lemma SignsHead(d: int, x: Reading, y: Reading)
    requires x.text == [] || y.text == [] || x.text[0] != y.text[0]
    requires if (x.text == [] && x.star) || (y.text == [] && y.star) then d == 0
             else if x.text == [] then (if y.text == [] then d == 0 else d < 0)
             else if y.text == [] then d > 0
             else if x.text[0] < y.text[0] then d < 0 else d > 0
    ensures Signs(d, x, y)
  {
    LexHead(x.text, y.text);
    LexHead(y.text, x.text);
  }

  /** A turn that decides. */
  lemma DecidedTurn(b: StrReg, bo: nat, a: StrReg, ao: nat)
    requires bo <= StrLen(b.data) && ao <= StrLen(a.data) && Decide(b, bo, a, ao).Some?
    ensures Signs(Decide(b, bo, a, ao).value, ReadingOf(b, bo), ReadingOf(a, ao))
  {
    ReadingStep(b, bo);
    ReadingStep(a, ao);
    SignsHead(Decide(b, bo, a, ao).value, ReadingOf(b, bo), ReadingOf(a, ao));
  }

  /** A turn that does not. */
  lemma UndecidedTurn(b: StrReg, bo: nat, a: StrReg, ao: nat) returns (w: int)
    requires bo <= StrLen(b.data) && ao <= StrLen(a.data) && Decide(b, bo, a, ao).None? && NextChar(b, bo).c != 0
    ensures var p, q := NextChar(b, bo), NextChar(a, ao);
            && p.off + 1 <= StrLen(b.data) && q.off + 1 <= StrLen(a.data)
            && ReadingOf(b, bo) == More(w, ReadingOf(b, p.off + 1))
            && ReadingOf(a, ao) == More(w, ReadingOf(a, q.off + 1))
            && StrCmpFrom(b, bo, a, ao) == StrCmpFrom(b, p.off + 1, a, q.off + 1) && bo < p.off + 1
  {
    ReadingStep(b, bo);
    ReadingStep(a, ao);
    w := Weight(NextChar(b, bo));
  }

  /** Between any two operands, literals on either side or on both, the comparison gives the sign
      that their readings call for, unless it goes on behind the terminators. */
  lemma {:induction false} StrCmpOrders(b: StrReg, bo: nat, a: StrReg, ao: nat)
    requires bo <= StrLen(b.data) && ao <= StrLen(a.data)
    ensures var d := StrCmpFrom(b, bo, a, ao); d.Some? ==> Signs(d.value, ReadingOf(b, bo), ReadingOf(a, ao))
    decreases |b.data| - bo
  {
    if Decide(b, bo, a, ao).Some? {
      DecidedTurn(b, bo, a, ao);
    } else if NextChar(b, bo).c != 0 {
      var w := UndecidedTurn(b, bo, a, ao);
      var bo', ao' := NextChar(b, bo).off + 1, NextChar(a, ao).off + 1;
      StrCmpOrders(b, bo', a, ao');
      var d := StrCmpFrom(b, bo', a, ao');
      if d.Some? {
        SignsTail(d.value, w, ReadingOf(b, bo'), ReadingOf(a, ao'));
      }
    }
  }
}
