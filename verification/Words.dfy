/** Bytes, 64-bit words and C strings. */
module Words {

  type byte = b: int | 0 <= b < 256

  /** A 64-bit register as its unsigned value. */
  type word = w: int | 0 <= w < 0x1_0000_0000_0000_0000

  datatype Option<+T> = None | Some(value: T)

  const MODULUS: nat := 0x1_0000_0000_0000_0000

  function Word(n: int): word { n % MODULUS }

  /** The value of a word read as int64_t. */
  function Signed(w: word): int { if w >= MODULUS / 2 then w - MODULUS else w }

  function ShiftLeft(b: word, n: nat): word
    decreases n
  {
    if n == 0 then b else ShiftLeft(Word(2 * b), n - 1)
  }

  function ShiftRight(b: word, n: nat): word { if n == 0 then b else ShiftRight(b / 2, n - 1) }

  /** Combination of the n low bits by a truth table. */
  function Bitwise(f: (bool, bool) -> bool, b: nat, a: nat, n: nat): nat {
    if n == 0 then 0
    else 2 * Bitwise(f, b / 2, a / 2, n - 1) + if f(b % 2 == 1, a % 2 == 1) then 1 else 0
  }

  /** Little-endian value of a byte string. */
  function LittleEndian(s: seq<byte>): nat {
    if s == [] then 0 else s[0] + 256 * LittleEndian(s[1..])
  }

  function Bytes(v: nat, n: nat): (s: seq<byte>)
    ensures |s| == n
  {
    if n == 0 then [] else [v % 256] + Bytes(v / 256, n - 1)
  }

  function Pow256(n: nat): (p: nat)
    ensures p >= 1
  {
    if n == 0 then 1 else 256 * Pow256(n - 1)
  }

  lemma {:induction false} BytesRoundTrip(v: nat, n: nat)
    requires v < Pow256(n)
    ensures LittleEndian(Bytes(v, n)) == v
  {
    if n > 0 {
      assert v / 256 < Pow256(n - 1);
      BytesRoundTrip(v / 256, n - 1);
      assert Bytes(v, n)[1..] == Bytes(v / 256, n - 1);
    }
  }

  /** strnlen */
  function StrLen(s: seq<byte>): (n: nat)
    ensures n <= |s|
    ensures n < |s| ==> s[n] == 0
    ensures forall k :: 0 <= k < n ==> s[k] != 0
  {
    if s == [] || s[0] == 0 then 0 else 1 + StrLen(s[1..])
  }

  lemma StrLenUnique(s: seq<byte>, n: nat)
    requires n < |s| && s[n] == 0
    requires forall k :: 0 <= k < n ==> s[k] != 0
    ensures StrLen(s) == n
  {
    assert StrLen(s) <= n;
  }

  lemma Associative<T>(a: seq<T>, b: seq<T>, c: seq<T>)
    ensures (a + b) + c == a + (b + c)
  {}

  lemma ScaledOrder(x: nat, y: nat, w: nat)
    requires w > 0
    ensures x * w >= y * w <==> x >= y
  {
    if x >= y {
      assert x * w == y * w + (x - y) * w;
    } else {
      assert y * w == x * w + (y - x) * w;
    }
  }
}
