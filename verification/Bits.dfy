/** Bitwise OR of unsigned words, and when it is a sum. */
module Bits {

  function Pow2(n: nat): (p: nat)
    ensures p > 0
  {
    if n == 0 then 1 else 2 * Pow2(n - 1)
  }

  function BitOr(a: nat, b: nat): nat
    decreases a + b
  {
    if a == 0 then b
    else if b == 0 then a
    else 2 * BitOr(a / 2, b / 2) + if a % 2 == 1 || b % 2 == 1 then 1 else 0
  }

  /** A number below 2^k is OR-ed into the k free low bits. */
  lemma {:induction false} OrIntoFreeBits(q: nat, k: nat, b: nat)
    requires b < Pow2(k)
    ensures BitOr(q * Pow2(k), b) == q * Pow2(k) + b
  {
    if k > 0 && q > 0 && b > 0 {
      var half := q * Pow2(k - 1);
      assert q * Pow2(k) == 2 * half;
      assert half > 0;
      OrIntoFreeBits(q, k - 1, b / 2);
    }
  }

  lemma Powers()
    ensures Pow2(5) == 0x20 && Pow2(6) == 0x40 && Pow2(11) == 0x800 && Pow2(12) == 0x1000
    ensures Pow2(18) == 0x4_0000 && Pow2(23) == 0x80_0000 && Pow2(28) == 0x1000_0000
  {
    assert Pow2(5) == 0x20;
    assert Pow2(11) == 2 * 2 * 2 * 2 * 2 * Pow2(6);
    assert Pow2(18) == 2 * 2 * 2 * 2 * 2 * 2 * Pow2(12);
    assert Pow2(23) == 2 * 2 * 2 * 2 * 2 * Pow2(18);
    assert Pow2(28) == 2 * 2 * 2 * 2 * 2 * Pow2(23);
  }

  /** The same with the scale written out, for the shifts in use. */
  lemma OrField(q: nat, k: nat, scale: nat, b: nat)
    requires b < scale
    requires (k, scale) in {(5, 0x20), (6, 0x40), (11, 0x800), (12, 0x1000), (18, 0x4_0000), (23, 0x80_0000), (28, 0x1000_0000)}
    ensures BitOr(q * scale, b) == q * scale + b
  {
    Powers();
    assert Pow2(k) == scale;
    OrIntoFreeBits(q, k, b);
  }
}
