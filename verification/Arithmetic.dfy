/** What the interpreter's operations on 64-bit registers mean for integers and for bits. */
module Arithmetic {
  import opened Words
  import opened Alignment
  import opened Opcodes
  import opened Interpreter

  function Bit(n: nat, k: nat): bool { if k == 0 then n % 2 == 1 else Bit(n / 2, k - 1) }

  /** A right shift is the quotient by a power of two. */
  lemma {:induction false} ShiftRightMeaning(b: word, n: nat)
    ensures ShiftRight(b, n) * Pow2(n) <= b < (ShiftRight(b, n) + 1) * Pow2(n)
  {
    if n > 0 {
      ShiftRightMeaning(b / 2, n - 1);
      Doubled(ShiftRight(b / 2, n - 1), Pow2(n - 1));
      Doubled(ShiftRight(b / 2, n - 1) + 1, Pow2(n - 1));
    }
  }

  lemma Doubled(q: nat, p: nat)
    ensures q * (2 * p) == 2 * (q * p)
  {
  }

  /** A left shift is the product with a power of two, in 64 bits. */
  lemma {:induction false} ShiftLeftMeaning(b: word, n: nat)
    ensures ShiftLeft(b, n) == Word(b * Pow2(n))
    decreases n
  {
    if n > 0 {
      ShiftLeftMeaning(Word(2 * b), n - 1);
      WordTimes(2 * b, Pow2(n - 1));
      assert 2 * b * Pow2(n - 1) == b * Pow2(n);
    }
  }

  lemma WordTimes(x: nat, m: nat)
    ensures Word(Word(x) * m) == Word(x * m)
  {
    var q := x / MODULUS;
    assert x == q * MODULUS + Word(x);
    assert x * m == Word(x) * m + q * m * MODULUS;
    WordPlus(Word(x) * m, q * m);
  }

  lemma {:induction false} WordPlus(x: nat, k: nat)
    ensures Word(x + k * MODULUS) == Word(x)
    decreases k
  {
    if k > 0 {
      WordPlus(x, k - 1);
    }
  }

  /** Each of the n low bits is the truth table applied to the operands' bits. */
  lemma {:induction false} BitwiseMeaning(f: (bool, bool) -> bool, b: nat, a: nat, n: nat, k: nat)
    requires k < n
    ensures Bit(Bitwise(f, b, a, n), k) == f(Bit(b, k), Bit(a, k))
  {
    if k > 0 {
      BitwiseMeaning(f, b / 2, a / 2, n - 1, k - 1);
    }
  }

  lemma {:induction false} BitwiseBound(f: (bool, bool) -> bool, b: nat, a: nat, n: nat)
    ensures Bitwise(f, b, a, n) < Pow2(n)
  {
    if n > 0 {
      BitwiseBound(f, b / 2, a / 2, n - 1);
    }
  }

  /** The other bit operators work bit by bit. */
  lemma BitResultMeaning(b: word, a: word, k: nat)
    requires k < 64
    ensures var r := BitResult(BitAnd, b, a); r.Ok? && r.value.VInt? && Bit(r.value.v, k) == (Bit(b, k) && Bit(a, k))
    ensures var r := BitResult(BitOr, b, a); r.Ok? && r.value.VInt? && Bit(r.value.v, k) == (Bit(b, k) || Bit(a, k))
    ensures var r := BitResult(BitXor, b, a); r.Ok? && r.value.VInt? && Bit(r.value.v, k) == (Bit(b, k) != Bit(a, k))
  {
    BitwiseWord((x, y) => x && y, b, a, k);
    BitwiseWord((x, y) => x || y, b, a, k);
    BitwiseWord((x, y) => x != y, b, a, k);
  }

  lemma BitwiseWord(f: (bool, bool) -> bool, b: word, a: word, k: nat)
    requires k < 64
    ensures Bit(Word(Bitwise(f, b, a, 64)), k) == f(Bit(b, k), Bit(a, k))
  {
    BitwiseMeaning(f, b, a, 64, k);
    BitwiseBound(f, b, a, 64);
    Pow2Of64();
  }

  lemma {:induction false} ComplementBit(n: nat, a: nat, k: nat)
    requires k < n && a < Pow2(n)
    ensures Bit(Pow2(n) - 1 - a, k) != Bit(a, k)
  {
    var c := Pow2(n) - 1 - a;
    assert c / 2 == Pow2(n - 1) - 1 - a / 2;
    if k > 0 {
      ComplementBit(n - 1, a / 2, k - 1);
    }
  }

  /** Negation is the two's complement one, NOT is logical, and the bit complement flips every
      bit. */
  lemma UnaryMeaning(a: word, k: nat)
    requires k < 64
    ensures Word(a + UnaryResult(Minus, a).v) == 0
    ensures Signed(a) != -(MODULUS / 2) ==> Signed(UnaryResult(Minus, a).v) == -Signed(a)
    ensures UnaryResult(Not, a).v == if Signed(a) == 0 then 1 else 0
    ensures Bit(MODULUS - 1 - a, k) != Bit(a, k)
  {
    Pow2Of64();
    ComplementBit(64, a, k);
  }

  lemma {:induction false} Pow256Bound(n: nat, m: nat)
    requires 0 < n <= m
    ensures Pow256(n) <= Pow256(m) && Pow256(n) % 2 == 0
    decreases m - n
  {
    if n < m {
      Pow256Bound(n + 1, m);
    }
  }

  lemma Pow256Eight()
    ensures Pow256(8) == MODULUS
  {
    assert Pow256(4) == 0x1_0000_0000;
    assert Pow256(6) == 0x1_0000_0000_0000;
  }

  lemma {:induction false} LittleEndianBound(s: seq<byte>)
    ensures LittleEndian(s) < Pow256(|s|)
  {
    if s != [] {
      LittleEndianBound(s[1..]);
    }
  }

  lemma SignedWord(x: int)
    ensures -(MODULUS as int) <= 2 * x < MODULUS ==> Signed(Word(x)) == x
    ensures 0 <= x < MODULUS ==> Word(x) == x
  {
  }

  /** A loaded element keeps its value: an unsigned one is its bytes' value, a signed one the
      value of that width in two's complement. */
  lemma ExtendMeaning(s: seq<byte>)
    requires 0 < |s| <= 8
    ensures Extend(false, s) == LittleEndian(s)
    ensures var n: int, m: int, v := LittleEndian(s), Pow256(|s|), Signed(Extend(true, s));
            -m <= 2 * v < m && (v == n || v == n - m)
  {
    LittleEndianBound(s);
    Pow256Bound(|s|, 8);
    Pow256Eight();
    var n: int, m: int := LittleEndian(s), Pow256(|s|);
    SignedWord(n);
    SignedWord(n - m);
  }
}
