/** The star-glob matcher: a backtracking loop that remembers only the most recent star,
    against a declarative matching relation. */
module Glob {
  import opened Words
  import opened Opcodes

  const STAR: byte := 42
  const BACKSLASH: byte := 92

  /** A string as its reader sees it: the bytes before the first NUL or the end of the buffer. */
  function Cut(s: seq<byte>): (r: seq<byte>)
    ensures forall k :: 0 <= k < |r| ==> r[k] != 0
  {
    s[..StrLen(s)]
  }

  /** The character callback; its precondition forbids reading past the terminating NUL. */
  function CharAt(s: seq<byte>, at: nat): (c: byte)
    requires at <= StrLen(s)
    ensures c == 0 <==> at == StrLen(s)
    ensures at < StrLen(s) ==> c == Cut(s)[at]
  {
    if at >= |s| then 0 else s[at]
  }

  /** Declarative matching: a star stands for any string, a backslash makes the next
      character literal, and a backslash at the very end matches nothing. */
  ghost predicate Matches(p: seq<byte>, c: seq<byte>)
    decreases |p|
  {
    if p == [] then c == []
    else if p[0] == STAR then exists k :: 0 <= k <= |c| && Matches(p[1..], c[k..])
    else if p[0] == BACKSLASH then |p| >= 2 && c != [] && c[0] == p[1] && Matches(p[2..], c[1..])
    else c != [] && c[0] == p[0] && Matches(p[1..], c[1..])
  }

  /** The relation the loop decides: as Matches, but once the candidate is used up only a
      single star may remain. */
  ghost predicate LoopMatches(p: seq<byte>, c: seq<byte>)
    decreases |p|
  {
    if p == [] then c == []
    else if p[0] == STAR then
      if c == [] then |p| == 1 else exists k :: 0 <= k <= |c| && LoopMatches(p[1..], c[k..])
    else if p[0] == BACKSLASH then |p| >= 2 && c != [] && c[0] == p[1] && LoopMatches(p[2..], c[1..])
    else c != [] && c[0] == p[0] && LoopMatches(p[1..], c[1..])
  }

  /** Length of the literal token that starts a pattern, 0 if it starts with a star or dangles. */
  function LitLen(p: seq<byte>): (n: nat)
    ensures n <= |p|
  {
    if p == [] || p[0] == STAR then 0
    else if p[0] == BACKSLASH then (if |p| >= 2 then 2 else 0)
    else 1
  }

  /** p[from..to] is exactly n literal tokens. */
  ghost predicate Literals(p: seq<byte>, from: nat, to: nat, n: nat)
    requires from <= |p|
    decreases n
  {
    if n == 0 then from == to
    else LitLen(p[from..]) > 0 && Literals(p, from + LitLen(p[from..]), to, n - 1)
  }

  lemma {:induction false} LiteralsExtend(p: seq<byte>, from: nat, to: nat, n: nat)
    requires from <= to <= |p| && Literals(p, from, to, n) && LitLen(p[to..]) > 0
    ensures Literals(p, from, to + LitLen(p[to..]), n + 1)
    decreases n
  {
    if n > 0 {
      LiteralsForward(p, from + LitLen(p[from..]), to, n - 1);
      LiteralsExtend(p, from + LitLen(p[from..]), to, n - 1);
    }
  }

  lemma {:induction false} LiteralsForward(p: seq<byte>, from: nat, to: nat, n: nat)
    requires from <= |p| && Literals(p, from, to, n)
    ensures from <= to
    decreases n
  {
    if n > 0 {
      LiteralsForward(p, from + LitLen(p[from..]), to, n - 1);
    }
  }

  /** Matching consumes one candidate character per literal token. */
  lemma {:induction false} LiteralsConsume(p: seq<byte>, from: nat, to: nat, n: nat, d: seq<byte>)
    requires from <= |p| && to <= |p| && Literals(p, from, to, n) && LoopMatches(p[from..], d)
    ensures n <= |d| && LoopMatches(p[to..], d[n..])
    decreases n
  {
    if n == 0 {
      assert d[0..] == d;
    } else {
      var w := LitLen(p[from..]);
      assert p[from..][w..] == p[from + w..];
      LiteralsConsume(p, from + w, to, n - 1, d[1..]);
      assert d[1..][n - 1..] == d[n..];
    }
  }

  /** What matches behind a star also matches from any earlier position. */
  lemma StarAbsorbs(p: seq<byte>, c: seq<byte>, j: nat, j': nat)
    requires j <= j' <= |c| && p != [] && p[0] == STAR && LoopMatches(p, c[j'..])
    ensures LoopMatches(p, c[j..])
  {
    if c[j..] != [] {
      if c[j'..] == [] {
        assert p[1..] == [] && c[j..][|c| - j..] == [];
        assert LoopMatches(p[1..], c[j..][|c| - j..]);
      } else {
        var k :| 0 <= k <= |c[j'..]| && LoopMatches(p[1..], c[j'..][k..]);
        assert c[j'..][k..] == c[j..][j' - j + k..];
        assert LoopMatches(p[1..], c[j..][j' - j + k..]);
      }
    }
  }

  /** Some try at or after candidate position i succeeds from pattern position r on. */
  ghost predicate SomeTry(p: seq<byte>, c: seq<byte>, r: nat, i: nat)
    requires r <= |p|
  {
    exists k :: i <= k <= |c| && LoopMatches(p[r..], c[k..])
  }

  /** What is still to be decided: the current try, or any later try behind the last star. */
  ghost predicate Pending(p: seq<byte>, c: seq<byte>, star: bool, rp: nat, rc: nat, pa: nat, ca: nat)
    requires rp <= |p| && pa <= |p| && ca <= |c|
  {
    LoopMatches(p[pa..], c[ca..]) || (star && SomeTry(p, c, rp, rc + 1))
  }

  /** A failed literal comparison or an exhausted pattern leaves only the later tries. */
  lemma TryFails(p: seq<byte>, c: seq<byte>, rp: nat, rc: nat, pa: nat, ca: nat)
    requires rp <= |p| && pa <= |p| && rc <= ca < |c|
    requires !LoopMatches(p[pa..], c[ca..])
    ensures Pending(p, c, true, rp, rc, pa, ca) == Pending(p, c, true, rp, rc + 1, rp, rc + 1)
  {
    assert SomeTry(p, c, rp, rc + 1) == (LoopMatches(p[rp..], c[rc + 1..]) || SomeTry(p, c, rp, rc + 2));
  }

  /** At a new star the older one can be forgotten: every later try of the older star
      reaches the new star no earlier than the current try does. */
  lemma NewStar(p: seq<byte>, c: seq<byte>, star: bool, rp: nat, rc: nat, pa: nat, ca: nat)
    requires rp <= pa < |p| && rc <= ca < |c| && p[pa] == STAR
    requires star ==> Literals(p, rp, pa, ca - rc)
    ensures Pending(p, c, star, rp, rc, pa, ca) == Pending(p, c, true, pa + 1, ca, pa + 1, ca)
  {
    if star && SomeTry(p, c, rp, rc + 1) {
      var k :| rc + 1 <= k <= |c| && LoopMatches(p[rp..], c[k..]);
      LiteralsConsume(p, rp, pa, ca - rc, c[k..]);
      assert c[k..][ca - rc..] == c[k + ca - rc..];
      StarAbsorbs(p[pa..], c, ca, k + ca - rc);
    }
    var d := c[ca..];
    assert p[pa..][1..] == p[pa + 1..];
    assert forall k :: 0 <= k <= |d| ==> d[k..] == c[ca + k..];
    assert LoopMatches(p[pa..], d) == exists k :: 0 <= k <= |d| && LoopMatches(p[pa + 1..], d[k..]);
    if LoopMatches(p[pa..], d) {
      var k :| 0 <= k <= |d| && LoopMatches(p[pa + 1..], d[k..]);
      assert LoopMatches(p[pa + 1..], c[ca + k..]);
    }
    if LoopMatches(p[pa + 1..], c[ca..]) {
      assert LoopMatches(p[pa + 1..], d[0..]);
    }
    if SomeTry(p, c, pa + 1, ca + 1) {
      var k :| ca + 1 <= k <= |c| && LoopMatches(p[pa + 1..], c[k..]);
      assert LoopMatches(p[pa + 1..], d[k - ca..]);
    }
  }

  lemma StarAtEnd(p: seq<byte>, c: seq<byte>, rp: nat, rc: nat)
    requires rp == |p| && rc < |c|
    ensures Pending(p, c, true, rp, rc, rp, rc)
  {
    assert p[rp..] == [] && c[|c|..] == [];
    assert LoopMatches(p[rp..], c[|c|..]);
  }

  /** With the candidate used up, later tries are too short to succeed. */
  lemma Exhausted(p: seq<byte>, c: seq<byte>, star: bool, rp: nat, rc: nat, pa: nat)
    requires rp <= pa <= |p| && rc <= |c|
    requires star ==> Literals(p, rp, pa, |c| - rc)
    ensures Pending(p, c, star, rp, rc, pa, |c|) == (p[pa..] == [] || p[pa..] == [STAR])
  {
    assert c[|c|..] == [];
    if star && SomeTry(p, c, rp, rc + 1) {
      var k :| rc + 1 <= k <= |c| && LoopMatches(p[rp..], c[k..]);
      LiteralsConsume(p, rp, pa, |c| - rc, c[k..]);
      assert false;
    }
    if p[pa..] != [] && p[pa..][0] == STAR {
      assert LoopMatches(p[pa..], []) == (|p[pa..]| == 1);
    }
  }

  /** A literal token decides a try by the next candidate character alone. */
  lemma LiteralStep(p: seq<byte>, c: seq<byte>, star: bool, rp: nat, rc: nat, pa: nat, ca: nat, w: nat)
    requires rp <= pa < |p| && rc <= ca < |c| && p[pa] != STAR
    requires w == (if p[pa] == BACKSLASH then 2 else 1)
    ensures if pa + w <= |p| && p[pa + w - 1] == c[ca]
            then Pending(p, c, star, rp, rc, pa, ca) == Pending(p, c, star, rp, rc, pa + w, ca + 1)
            else !LoopMatches(p[pa..], c[ca..])
    ensures pa + w <= |p| && star && Literals(p, rp, pa, ca - rc) ==> Literals(p, rp, pa + w, ca + 1 - rc)
  {
    assert pa + w <= |p| ==> LitLen(p[pa..]) == w && p[pa..][w..] == p[pa + w..];
    assert c[ca..][1..] == c[ca + 1..];
    if pa + w <= |p| && star && Literals(p, rp, pa, ca - rc) {
      LiteralsExtend(p, rp, pa, ca - rc);
    }
  }

  /** Positions of the matcher: the current try and the retry point behind the last star. */
  datatype Pos = Pos(gotAStar: bool, retryP: nat, retryC: nat, pAt: nat, cAt: nat)

  ghost predicate ValidPos(p: seq<byte>, c: seq<byte>, s: Pos) {
    && s.retryP <= s.pAt <= |p| && s.retryC <= s.cAt <= |c|
    && (s.gotAStar ==> Literals(p, s.retryP, s.pAt, s.cAt - s.retryC))
  }

  ghost predicate PendingAt(p: seq<byte>, c: seq<byte>, s: Pos)
    requires ValidPos(p, c, s)
  {
    Pending(p, c, s.gotAStar, s.retryP, s.retryC, s.pAt, s.cAt)
  }

  /** The later position is the earlier one moved on: a newer star, a later retry, or a longer match. */
  ghost predicate Progress(s: Pos, s': Pos) {
    || s.retryP < s'.retryP
    || (s.retryP == s'.retryP && s.retryC < s'.retryC)
    || (s.retryP == s'.retryP && s.retryC == s'.retryC && s.cAt < s'.cAt)
  }

  /** The literal cases of the switch, and the mismatch exit that retries behind the last star. */
  method MatchLiteral(pattern: seq<byte>, candidate: seq<byte>, s: Pos) returns (failed: bool, s': Pos)
    requires ValidPos(Cut(pattern), Cut(candidate), s) && s.cAt < |Cut(candidate)|
    requires s.pAt < |Cut(pattern)| ==> Cut(pattern)[s.pAt] != STAR
    ensures failed ==> !PendingAt(Cut(pattern), Cut(candidate), s)
    ensures !failed ==> ValidPos(Cut(pattern), Cut(candidate), s') && Progress(s, s')
    ensures !failed ==> PendingAt(Cut(pattern), Cut(candidate), s') == PendingAt(Cut(pattern), Cut(candidate), s)
  {
    ghost var p, c := Cut(pattern), Cut(candidate);
    var lit, ch := s.pAt, CharAt(pattern, s.pAt);
    if ch == BACKSLASH {
      lit := s.pAt + 1;
      ch := CharAt(pattern, lit);
    }
    if s.pAt < |p| {
      LiteralStep(p, c, s.gotAStar, s.retryP, s.retryC, s.pAt, s.cAt, lit + 1 - s.pAt);
    }
    if ch == 0 || CharAt(candidate, s.cAt) != ch {
      if !s.gotAStar {
        return true, s;
      }
      TryFails(p, c, s.retryP, s.retryC, s.pAt, s.cAt);
      return false, s.(retryC := s.retryC + 1, cAt := s.retryC + 1, pAt := s.retryP);
    }
    return false, s.(cAt := s.cAt + 1, pAt := lit + 1);
  }

  /** strutils_star_glob_match_char_cb: each turn is one turn of the inner loop, with the
      jumps to its retry label as assignments. */
  method StarGlobMatch(pattern: seq<byte>, candidate: seq<byte>) returns (r: bool)
    ensures r == LoopMatches(Cut(pattern), Cut(candidate))
  {
    ghost var p, c := Cut(pattern), Cut(candidate);
    var s := Pos(false, 0, 0, 0, 0);
    ghost var goal := PendingAt(p, c, s);
    assert goal == LoopMatches(p, c) by { assert c[0..] == c && p[0..] == p; }
    while CharAt(candidate, s.cAt) != 0
      invariant ValidPos(p, c, s) && goal == PendingAt(p, c, s)
      decreases |p| - s.retryP, |c| - s.retryC, |c| - s.cAt
    {
      if CharAt(pattern, s.pAt) == STAR {
        NewStar(p, c, s.gotAStar, s.retryP, s.retryC, s.pAt, s.cAt);
        s := Pos(true, s.pAt + 1, s.cAt, s.pAt + 1, s.cAt);
        if CharAt(pattern, s.retryP) == 0 {
          StarAtEnd(p, c, s.retryP, s.cAt);
          return true;
        }
      } else {
        var failed, s' := MatchLiteral(pattern, candidate, s);
        if failed {
          return false;
        }
        s := s';
      }
    }
    Exhausted(p, c, s.gotAStar, s.retryP, s.retryC, s.pAt);
    var last := CharAt(pattern, s.pAt);
    if last == 0 {
      return true;
    }
    return last == STAR && CharAt(pattern, s.pAt + 1) == 0;
  }

  predicate AllStars(p: seq<byte>) { forall k :: 0 <= k < |p| ==> p[k] == STAR }

  /** The pattern ends with two adjacent unescaped stars. */
  predicate EndsWithTwoStars(p: seq<byte>) {
    if p == [] then false
    else if p[0] == STAR then (|p| >= 2 && AllStars(p)) || EndsWithTwoStars(p[1..])
    else if p[0] == BACKSLASH then |p| >= 2 && EndsWithTwoStars(p[2..])
    else EndsWithTwoStars(p[1..])
  }

  lemma {:induction false} StarsMatchEmpty(p: seq<byte>)
    ensures Matches(p, []) <==> AllStars(p)
    decreases |p|
  {
    if p != [] && p[0] == STAR {
      StarsMatchEmpty(p[1..]);
      var e: seq<byte> := [];
      assert e[0..] == e;
      assert AllStars(p) <==> AllStars(p[1..]) by {
        if AllStars(p[1..]) {
          forall k | 0 <= k < |p| ensures p[k] == STAR { if k > 0 { assert p[k] == p[1..][k - 1]; } }
        }
      }
    }
  }

  /** Without a double star at the end the loop decides declarative matching. */
  lemma {:induction false} LoopIsDeclarative(p: seq<byte>, c: seq<byte>)
    requires !EndsWithTwoStars(p)
    ensures LoopMatches(p, c) == Matches(p, c)
    decreases |p|
  {
    if p != [] && p[0] == STAR {
      forall k | 0 <= k <= |c| ensures LoopMatches(p[1..], c[k..]) == Matches(p[1..], c[k..]) {
        LoopIsDeclarative(p[1..], c[k..]);
      }
      if c == [] {
        StarsMatchEmpty(p);
      }
    } else if p != [] && p[0] == BACKSLASH {
      if |p| >= 2 && c != [] {
        LoopIsDeclarative(p[2..], c[1..]);
      }
    } else if p != [] && c != [] {
      LoopIsDeclarative(p[1..], c[1..]);
    }
  }

  /** The literal characters of a pattern: its shortest match when no backslash dangles. */
  function Skeleton(p: seq<byte>): seq<byte> {
    if p == [] then []
    else if p[0] == STAR then Skeleton(p[1..])
    else if p[0] == BACKSLASH then (if |p| >= 2 then [p[1]] + Skeleton(p[2..]) else [])
    else [p[0]] + Skeleton(p[1..])
  }

  lemma {:induction false} LoopNeedsLiterals(p: seq<byte>, c: seq<byte>)
    requires LoopMatches(p, c)
    ensures |c| >= |Skeleton(p)|
    decreases |p|
  {
    if p != [] && p[0] == STAR {
      if c != [] {
        var k :| 0 <= k <= |c| && LoopMatches(p[1..], c[k..]);
        LoopNeedsLiterals(p[1..], c[k..]);
      } else {
        assert p[1..] == [];
      }
    } else if p != [] && p[0] == BACKSLASH {
      LoopNeedsLiterals(p[2..], c[1..]);
    } else if p != [] {
      LoopNeedsLiterals(p[1..], c[1..]);
    }
  }

  /** A pattern that ends with two stars matches its own literals, but the loop rejects them. */
  lemma {:induction false} DoubleStarRejected(p: seq<byte>)
    requires EndsWithTwoStars(p)
    ensures Matches(p, Skeleton(p)) && !LoopMatches(p, Skeleton(p))
    decreases |p|
  {
    var s := Skeleton(p);
    if p[0] == STAR {
      if AllStars(p) {
        SkeletonOfStars(p);
        StarsMatchEmpty(p);
      } else {
        DoubleStarRejected(p[1..]);
        assert s[0..] == s;
        if LoopMatches(p, s) {
          var k :| 0 <= k <= |s| && LoopMatches(p[1..], s[k..]);
          LoopNeedsLiterals(p[1..], s[k..]);
        }
      }
    } else if p[0] == BACKSLASH {
      DoubleStarRejected(p[2..]);
      assert s[1..] == Skeleton(p[2..]);
    } else {
      DoubleStarRejected(p[1..]);
      assert s[1..] == Skeleton(p[1..]);
    }
  }

  lemma {:induction false} SkeletonOfStars(p: seq<byte>)
    requires AllStars(p)
    ensures Skeleton(p) == []
  {
    if p != [] {
      SkeletonOfStars(p[1..]);
    }
  }

  /** The matcher decides declarative matching for every candidate exactly when the pattern
      does not end with two adjacent unescaped stars. */
  lemma MatcherIsExact(p: seq<byte>)
    ensures (forall c :: LoopMatches(p, c) == Matches(p, c)) <==> !EndsWithTwoStars(p)
  {
    if EndsWithTwoStars(p) {
      DoubleStarRejected(p);
    } else {
      forall c ensures LoopMatches(p, c) == Matches(p, c) {
        LoopIsDeclarative(p, c);
      }
    }
  }

  /** What strutils_test_glob_pattern tells apart: no unescaped star, one at the very end only,
      or an earlier one. */
  datatype Shape = Plain | EndOnly | Starred

  function ShapeOf(p: seq<byte>): Shape {
    if p == [] then Plain
    else if p[0] == STAR then (if |p| == 1 then EndOnly else Starred)
    else if p[0] == BACKSLASH then (if |p| == 1 then Plain else ShapeOf(p[2..]))
    else ShapeOf(p[1..])
  }

  /** The text before the first unescaped star, escapes removed; None if a backslash dangles. */
  function LiteralText(p: seq<byte>): Option<seq<byte>> {
    if p == [] || p[0] == STAR then Some([])
    else if LitLen(p) == 0 then None
    else match LiteralText(p[LitLen(p)..]) case None => None case Some(t) => Some([p[LitLen(p) - 1]] + t)
  }

  /** A plain pattern matches its text alone; one with a star only at the end matches exactly
      the strings that begin with its text. */
  lemma {:induction false} ShapeMeaning(p: seq<byte>, c: seq<byte>)
    ensures ShapeOf(p) == Plain ==> (Matches(p, c) <==> LiteralText(p) == Some(c))
    ensures ShapeOf(p) == EndOnly ==> (Matches(p, c) <==> LiteralText(p).Some? && LiteralText(p).value <= c)
    decreases |p|
  {
    if p == [] || LitLen(p) == 0 {
      if p != [] && p[0] == STAR && |p| == 1 {
        assert Matches(p[1..], c[|c|..]);
      }
    } else {
      var w := LitLen(p);
      if c != [] {
        ShapeMeaning(p[w..], c[1..]);
        assert c == [c[0]] + c[1..];
        LiteralStarts(LiteralText(p[w..]), p[w - 1], c);
      }
    }
  }

  lemma LiteralStarts(t: Option<seq<byte>>, b: byte, c: seq<byte>)
    requires c != []
    ensures t.Some? ==> ([b] + t.value == c <==> b == c[0] && t.value == c[1..])
    ensures t.Some? ==> ([b] + t.value <= c <==> b == c[0] && t.value <= c[1..])
  {
    if t.Some? {
      assert ([b] + t.value)[1..] == t.value && ([b] + t.value)[0] == b;
      assert c == [c[0]] + c[1..];
    }
  }

  method TestGlobPattern(pattern: seq<byte>) returns (shape: Shape)
    ensures shape == ShapeOf(Cut(pattern))
  {
    var n := StrLen(pattern);
    ghost var p := Cut(pattern);
    var at := 0;
    assert p[0..] == p;
    while at < n
      invariant at <= n == |p| && ShapeOf(p[at..]) == ShapeOf(p)
    {
      if CharAt(pattern, at) == STAR {
        return if CharAt(pattern, at + 1) == 0 then EndOnly else Starred;
      }
      if CharAt(pattern, at) == BACKSLASH {
        at := at + 1;
        if CharAt(pattern, at) == 0 {
          return Plain;
        }
        assert p[at - 1..][2..] == p[at + 1..];
      } else {
        assert p[at..][1..] == p[at + 1..];
      }
      at := at + 1;
    }
    return Plain;
  }
}
