/** Bytes, little-endian words, and exclusive or on unbounded naturals. */
module Bytes {

  type byte = b: int | 0 <= b < 256

  type Data = seq<byte>

  /** How many 32-bit words there are. */
  const WORD_COUNT := 0x1_0000_0000

  /** The order of bytes, as a rank. */
  function ByteRank(b: byte): (n: int) { b as int }

  function Pow256(n: nat): (p: nat)
    ensures p > 0
  {
    if n == 0 then 1 else 256 * Pow256(n - 1)
  }

  /** `int.from_bytes(data, 'little')`: any length, the empty string is zero. */
  function Little(data: Data): (n: nat) {
    if data == [] then 0 else data[0] + 256 * Little(data[1..])
  }

  /** `n.to_bytes(size, 'little')` for an `n` that fits. */
  function ToLittle(n: nat, size: nat): (data: Data)
    ensures |data| == size
  {
    if size == 0 then [] else [n % 256] + ToLittle(n / 256, size - 1)
  }

  lemma {:induction false} LittleBound(data: Data)
    ensures Little(data) < Pow256(|data|)
  {
    if data != [] { LittleBound(data[1..]); }
  }

  lemma {:induction false} LittleRoundTrip(n: nat, size: nat)
    requires n < Pow256(size)
    ensures Little(ToLittle(n, size)) == n
  {
    if size > 0 {
      assert n / 256 < Pow256(size - 1);
      LittleRoundTrip(n / 256, size - 1);
      assert ToLittle(n, size)[1..] == ToLittle(n / 256, size - 1);
    }
  }

  lemma {:induction false} ToLittleRoundTrip(data: Data)
    ensures ToLittle(Little(data), |data|) == data
  {
    if data != [] {
      ToLittleRoundTrip(data[1..]);
      LowByte(data[0], Little(data[1..]));
      assert data == [data[0]] + data[1..];
    }
  }

  lemma LowByte(b: byte, n: nat)
    ensures (b + 256 * n) % 256 == b as int && (b + 256 * n) / 256 == n
  {
  }

  /** The bytes of a 16-bit and of a 32-bit number, the lowest first. */
  function Two(n: nat): (d: Data) { [n % 256, n / 0x100 % 256] }

  function Four(n: nat): (d: Data) { [n % 256, n / 0x100 % 256, n / 0x1_0000 % 256, n / 0x100_0000 % 256] }

  lemma LittleBytes(n: nat)
    ensures ToLittle(n, 2) == Two(n) && ToLittle(n, 4) == Four(n)
  {
    ToLittleStep(n, 1);
    ToLittleStep(n / 256, 0);
    ToLittleStep(n, 3);
    ToLittleStep(n / 256, 2);
    ToLittleStep(n / 256 / 256, 1);
    ToLittleStep(n / 256 / 256 / 256, 0);
    assert n / 256 / 256 == n / 0x1_0000 && n / 0x1_0000 / 256 == n / 0x100_0000;
  }

  lemma ToLittleStep(n: nat, size: nat)
    ensures ToLittle(n, size + 1) == [n % 256] + ToLittle(n / 256, size) && ToLittle(n, 0) == []
  {
  }

  lemma PowersOf256()
    ensures Pow256(1) == 0x100 && Pow256(2) == 0x1_0000 && Pow256(3) == 0x100_0000 && Pow256(4) == 0x1_0000_0000
  {
    assert Pow256(0) == 1;
  }

  // ---- exclusive or ----

  function Xor(a: nat, b: nat): (r: nat)
    decreases a + b
  {
    if a == 0 then b else if b == 0 then a
    else 2 * Xor(a / 2, b / 2) + (a % 2 + b % 2) % 2
  }

  lemma Halves(x: nat, bit: nat)
    requires bit < 2
    ensures (2 * x + bit) % 2 == bit && (2 * x + bit) / 2 == x
  {
  }

  lemma SameHalves(x: nat, y: nat)
    requires x % 2 == y % 2 && x / 2 == y / 2
    ensures x == y
  {
  }

  lemma Parity(x: nat, y: nat, z: nat)
    requires x < 2 && y < 2 && z < 2
    ensures ((x + y) % 2 + z) % 2 == (x + (y + z) % 2) % 2
  {
  }

  lemma {:induction false} XorStep(a: nat, b: nat)
    ensures Xor(a, b) % 2 == (a % 2 + b % 2) % 2 && Xor(a, b) / 2 == Xor(a / 2, b / 2)
  {
    if a != 0 && b != 0 { Halves(Xor(a / 2, b / 2), (a % 2 + b % 2) % 2); }
  }

  lemma {:induction false} XorCommutes(a: nat, b: nat)
    ensures Xor(a, b) == Xor(b, a)
    decreases a + b
  {
    if a != 0 && b != 0 { XorCommutes(a / 2, b / 2); }
  }

  lemma {:induction false} XorAssociates(a: nat, b: nat, c: nat)
    ensures Xor(Xor(a, b), c) == Xor(a, Xor(b, c))
    decreases a + b + c
  {
    if a != 0 && b != 0 && c != 0 {
      XorAssociates(a / 2, b / 2, c / 2);
      XorJoins(a, b, c);
    }
  }

  lemma LowBits(a: nat, b: nat, c: nat)
    ensures Xor(Xor(a, b), c) % 2 == Xor(a, Xor(b, c)) % 2
  {
    hide *;
    XorStep(a, b);
    XorStep(b, c);
    XorStep(Xor(a, b), c);
    XorStep(a, Xor(b, c));
    Parity(a % 2, b % 2, c % 2);
  }

  lemma XorJoins(a: nat, b: nat, c: nat)
    requires Xor(Xor(a / 2, b / 2), c / 2) == Xor(a / 2, Xor(b / 2, c / 2))
    ensures Xor(Xor(a, b), c) == Xor(a, Xor(b, c))
  {
    hide *;
    LowBits(a, b, c);
    XorStep(a, b);
    XorStep(b, c);
    XorStep(Xor(a, b), c);
    XorStep(a, Xor(b, c));
    SameHalves(Xor(Xor(a, b), c), Xor(a, Xor(b, c)));
  }

  lemma {:induction false} XorSelf(a: nat)
    ensures Xor(a, a) == 0
  {
    if a != 0 { XorSelf(a / 2); }
  }

  /** Different words stay different under any common mask. */
  lemma XorCancels(a: nat, b: nat, c: nat)
    requires Xor(a, c) == Xor(b, c)
    ensures a == b
  {
    XorAssociates(a, c, c);
    XorAssociates(b, c, c);
    XorSelf(c);
  }

  function Pow2(k: nat): (p: nat)
    ensures p > 0
  {
    if k == 0 then 1 else 2 * Pow2(k - 1)
  }

  lemma {:induction false} XorBound(a: nat, b: nat, k: nat)
    requires a < Pow2(k) && b < Pow2(k)
    ensures Xor(a, b) < Pow2(k)
  {
    if k > 0 {
      assert a / 2 < Pow2(k - 1) && b / 2 < Pow2(k - 1);
      XorBound(a / 2, b / 2, k - 1);
      XorStep(a, b);
    }
  }

  /** `n << k`. */
  function Shift(n: nat, k: nat): (r: nat) {
    if k == 0 then n else 2 * Shift(n, k - 1)
  }

  /** A number below `2^k` shares no bit with a number shifted by `k`, so exclusive or adds them. */
  lemma {:induction false} XorDisjoint(low: nat, n: nat, k: nat)
    requires low < Pow2(k)
    ensures Xor(low, Shift(n, k)) == low + Shift(n, k)
  {
    if k == 0 {
      XorZero(n);
    } else {
      hide Xor;
      XorDisjoint(low / 2, n, k - 1);
      XorStep(low, Shift(n, k));
      Halves(Shift(n, k - 1), 0);
      SumHalves(Xor(low, Shift(n, k)), low, Shift(n, k - 1));
    }
  }

  lemma XorZero(n: nat)
    ensures Xor(0, n) == n && Shift(n, 0) == n
  {
  }

  lemma SumHalves(x: nat, low: nat, high: nat)
    requires x % 2 == low % 2 && x / 2 == low / 2 + high
    ensures x == low + 2 * high
  {
  }

  lemma DoubleProduct(n: nat, p: nat)
    ensures 2 * (n * p) == n * (2 * p)
  {
  }

  lemma {:induction false} ShiftMultiplies(n: nat, k: nat)
    ensures Shift(n, k) == n * Pow2(k)
  {
    if k > 0 {
      ShiftMultiplies(n, k - 1);
      DoubleProduct(n, Pow2(k - 1));
    }
  }

  lemma ByteShifts(n: nat)
    ensures Pow2(8) == 0x100 && Pow2(16) == 0x1_0000
    ensures Shift(n, 0) == n && Shift(n, 8) == 0x100 * n && Shift(n, 16) == 0x1_0000 * n
  {
    ShiftMultiplies(n, 8);
    ShiftMultiplies(n, 16);
    assert Pow2(4) == 16 && Pow2(8) == 256 && Pow2(12) == 4096;
  }
}
