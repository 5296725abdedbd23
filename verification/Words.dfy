/** 64-bit words as numbers, with the three operations that mix them. */
module Words {
  import opened Bytes

  type Word = x: nat | x < 0x1_0000_0000_0000_0000

  /** A number kept in a word. */
  function Low(n: nat): (w: Word) { n % 0x1_0000_0000_0000_0000 }

  lemma LowAdds(a: nat, b: nat)
    ensures Low(Low(a) + Low(b)) == Low(a + b)
  {
  }

  lemma PowersOfTwo()
    ensures Pow2(64) == 0x1_0000_0000_0000_0000
  {
    assert Pow2(8) == 0x100;
    assert Pow2(16) == 0x1_0000;
    assert Pow2(24) == 0x100_0000;
    assert Pow2(32) == 0x1_0000_0000;
    assert Pow2(40) == 0x100_0000_0000;
    assert Pow2(48) == 0x1_0000_0000_0000;
    assert Pow2(56) == 0x100_0000_0000_0000;
  }

  lemma XorIsWord(a: Word, b: Word)
    ensures Xor(a, b) < 0x1_0000_0000_0000_0000
  {
    hide *;
    PowersOfTwo();
    XorBound(a, b, 64);
  }

  /** `a ^ b` */
  function Mask(a: Word, b: Word): (r: Word) {
    XorIsWord(a, b);
    Xor(a, b)
  }

  /** `(x << 7) | (x >> 57)` */
  function Rotated(x: Word): (r: Word) {
    RotationIsWord(x);
    x % 0x200_0000_0000_0000 * 128 + x / 0x200_0000_0000_0000
  }

  lemma RotationIsWord(x: Word)
    ensures x % 0x200_0000_0000_0000 * 128 + x / 0x200_0000_0000_0000 < 0x1_0000_0000_0000_0000
  {
  }

  /** `x * 1099511628211`, the FNV prime, modulo 2^64. */
  function TimesPrime(x: Word): (r: Word) { x * 1099511628211 % 0x1_0000_0000_0000_0000 }

  lemma RotationIsInjective(x: Word, y: Word)
    requires Rotated(x) == Rotated(y)
    ensures x == y
  {
  }

  /** The multiplier is odd: 14886173955864302971 inverts it. */
  lemma ProductIsInjective(x: Word, y: Word)
    requires TimesPrime(x) == TimesPrime(y)
    ensures x == y
  {
    var k := x * 1099511628211 / 0x1_0000_0000_0000_0000 - y * 1099511628211 / 0x1_0000_0000_0000_0000;
    assert (x - y) * 1099511628211 == k * 0x1_0000_0000_0000_0000;
    Inverted(x - y, k);
  }

  lemma Inverted(d: int, k: int)
    requires d * 1099511628211 == k * 0x1_0000_0000_0000_0000
    ensures d == (k * 14886173955864302971 - d * 887285111055) * 0x1_0000_0000_0000_0000
  {
  }

  lemma MaskAssociates(a: Word, b: Word, c: Word)
    ensures Mask(Mask(a, b), c) == Mask(a, Mask(b, c))
  {
    hide Xor;
    XorAssociates(a, b, c);
  }

  lemma MaskCommutes(a: Word, b: Word)
    ensures Mask(a, b) == Mask(b, a)
  {
    hide Xor;
    XorCommutes(a, b);
  }

  lemma MaskSelf(a: Word)
    ensures Mask(a, a) == 0 && Mask(a, 0) == a && Mask(0, a) == a
  {
    XorSelf(a);
  }

  /** A common mask keeps any two words apart. */
  lemma MaskCancels(c: Word, a: Word, b: Word)
    ensures Mask(c, a) == Mask(c, b) <==> a == b
    ensures Mask(a, c) == Mask(b, c) <==> a == b
  {
    hide Mask;
    MaskAssociates(c, c, a);
    MaskAssociates(c, c, b);
    MaskSelf(c);
    MaskSelf(a);
    MaskSelf(b);
    MaskCommutes(a, c);
    MaskCommutes(b, c);
  }
}
