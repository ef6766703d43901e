/** Padding to a power-of-two alignment. */
module Alignment {
  import opened Words

  predicate IsPow2(n: nat) { n == 1 || (n >= 2 && n % 2 == 0 && IsPow2(n / 2)) }

  predicate Divides(a: nat, x: nat)
    requires a > 0
  {
    x == 0 || (x >= a && Divides(a, x - a))
  }

  /** Bytes missing to the next multiple of the alignment. */
  function Missing(drift: nat, align: nat): (p: nat)
    requires align > 0
    ensures p < align
  {
    if drift == 0 then 0 else if drift < align then align - drift else Missing(drift - align, align)
  }

  lemma {:induction false} MissingAligns(drift: nat, a: nat)
    requires a > 0
    ensures Divides(a, drift + Missing(drift, a))
  {
    if drift >= a {
      MissingAligns(drift - a, a);
    }
  }

  lemma {:induction false} DividesSum(a: nat, x: nat, y: nat)
    requires a > 0 && Divides(a, x) && Divides(a, y)
    ensures Divides(a, x + y)
  {
    if x > 0 {
      DividesSum(a, x - a, y);
    }
  }

  lemma {:induction false} DividesThrough(a: nat, l: nat, x: nat)
    requires a > 0 && l > 0 && Divides(a, l) && Divides(l, x)
    ensures Divides(a, x)
    decreases x
  {
    if x > 0 {
      DividesThrough(a, l, x - l);
      DividesSum(a, l, x - l);
    }
  }

  lemma {:induction false} Pow2Divides(a: nat, b: nat)
    requires IsPow2(a) && IsPow2(b) && a <= b
    ensures Divides(a, b)
    decreases b
  {
    if a < b {
      Pow2Double(a, b);
      Pow2Divides(a, b / 2);
      DividesSum(a, b / 2, b / 2);
    }
  }

  lemma {:induction false} Pow2Double(a: nat, b: nat)
    requires IsPow2(a) && IsPow2(b) && a < b
    ensures a <= b / 2
  {
    if a > 1 {
      Pow2Double(a / 2, b / 2);
    }
  }

  /** Shifting an offset by a multiple of the alignment does not change its padding. */
  lemma {:induction false} MissingShift(base: nat, rel: nat, a: nat)
    requires a > 0 && Divides(a, base)
    ensures Missing(base + rel, a) == Missing(rel, a)
  {
    if base > 0 {
      MissingShift(base - a, rel, a);
    }
  }

  // ---- the mask form ----

  function And(b: nat, a: nat): nat { Bitwise((x, y) => x && y, b, a, 64) }

  /** offset_align: the macro on size_t values. */
  function OffsetAlign(drift: word, align: word): nat
    requires IsPow2(align)
  {
    And(Word(align - drift + MODULUS), align - 1)
  }

  function Pow2(n: nat): (p: nat)
    ensures p >= 1
  {
    if n == 0 then 1 else 2 * Pow2(n - 1)
  }

  lemma {:induction false} AndZero(x: nat, n: nat)
    ensures Bitwise((x, y) => x && y, x, 0, n) == 0
    decreases n
  {
    if n > 0 {
      AndZero(x / 2, n - 1);
    }
  }

  /** Masking completes to a multiple: what the mask removes is divisible. */
  lemma {:induction false} MaskIsRemainder(x: nat, p: nat, n: nat)
    requires IsPow2(p) && x < Pow2(n) && p <= Pow2(n)
    ensures var m := Bitwise((x, y) => x && y, x, p - 1, n); m < p && m <= x && Divides(p, x - m)
    decreases n
  {
    if n > 0 {
      if p == 1 {
        AndZero(x, n);
        OneDivides(x);
      } else {
        MaskIsRemainder(x / 2, p / 2, n - 1);
        assert (p - 1) / 2 == p / 2 - 1 && (p - 1) % 2 == 1;
        var h := Bitwise((x, y) => x && y, x / 2, p / 2 - 1, n - 1);
        DividesDouble(p / 2, x / 2 - h);
      }
    } else {
      assert p == 1;
    }
  }

  lemma {:induction false} OneDivides(x: nat)
    ensures Divides(1, x)
  {
    if x > 0 {
      OneDivides(x - 1);
    }
  }

  lemma {:induction false} DividesDouble(a: nat, x: nat)
    requires a > 0 && Divides(a, x)
    ensures Divides(2 * a, 2 * x)
  {
    if x > 0 {
      DividesDouble(a, x - a);
    }
  }

  lemma {:induction false} Pow2Of64()
    ensures Pow2(64) == MODULUS && IsPow2(MODULUS)
  {
    assert Pow2(8) == 256;
    assert Pow2(16) == 65536;
    assert Pow2(24) == 0x100_0000;
    assert Pow2(32) == 0x1_0000_0000;
    assert Pow2(40) == 0x100_0000_0000;
    assert Pow2(48) == 0x1_0000_0000_0000;
    assert Pow2(56) == 0x100_0000_0000_0000;
    PowIsPow2(64);
  }

  lemma {:induction false} PowIsPow2(n: nat)
    ensures IsPow2(Pow2(n))
  {
    if n > 0 {
      PowIsPow2(n - 1);
    }
  }

  /** A completion to a multiple that is below the alignment is the missing amount. */
  lemma {:induction false} MissingUnique(drift: nat, m: nat, a: nat)
    requires a > 0 && m < a && Divides(a, drift + m)
    ensures m == Missing(drift, a)
    decreases drift
  {
    if drift >= a {
      MissingUnique(drift - a, m, a);
    } else if drift > 0 {
      assert Divides(a, drift + m - a);
    }
  }

  lemma {:induction false} DividesRest(a: nat, x: nat, y: nat)
    requires a > 0 && Divides(a, x) && Divides(a, x + y)
    ensures Divides(a, y)
  {
    if x > 0 {
      DividesRest(a, x - a, y);
    }
  }

  /** The macro yields the bytes missing to the next multiple of the alignment. */
  lemma OffsetAlignIsMissing(drift: word, align: word)
    requires IsPow2(align)
    ensures OffsetAlign(drift, align) == Missing(drift, align)
  {
    Pow2Of64();
    MaskIsRemainder(Word(align - drift + MODULUS), align, 64);
    MissingFromMask(drift, OffsetAlign(drift, align), align);
  }

  lemma MissingFromMask(drift: word, m: nat, align: word)
    requires IsPow2(align) && IsPow2(MODULUS)
    requires var x := Word(align - drift + MODULUS); m < align && m <= x && Divides(align, x - m)
    ensures m == Missing(drift, align)
  {
    var x := Word(align - drift + MODULUS);
    Pow2Divides(align, MODULUS);
    // drift + x is align, or align + MODULUS; both are multiples of align
    DividesSum(align, MODULUS, align);
    assert Divides(align, drift + x);
    DividesRest(align, x - m, drift + m);
    MissingUnique(drift, m, align);
  }
}
