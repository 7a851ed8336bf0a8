/** Machine words as unbounded naturals: powers of two, bitwise operations defined bit by bit,
    and the few arithmetic facts that replace them where bits do not overlap. */
module Bits {

  type byte = x: int | 0 <= x < 256

  const TWO_32: nat := 0x1_0000_0000
  type uint32 = x: int | 0 <= x < TWO_32

  function Pow2(k: nat): (p: nat)
    ensures p > 0
  {
    if k == 0 then 1 else 2 * Pow2(k - 1)
  }

  /** Bitwise or of two naturals, by the definition of the operation on each bit. */
  function Or(a: nat, b: nat): nat
    decreases a + b
  {
    if a == 0 && b == 0 then 0
    else 2 * Or(a / 2, b / 2) + (if a % 2 == 1 || b % 2 == 1 then 1 else 0)
  }

  /** Bitwise exclusive or, by the definition of the operation on each bit. */
  function Xor(a: nat, b: nat): nat
    decreases a + b
  {
    if a == 0 && b == 0 then 0
    else 2 * Xor(a / 2, b / 2) + (if a % 2 != b % 2 then 1 else 0)
  }

  /** Left shift in a 32-bit word: a count of 32 or more leaves zero. */
  function Shl32(v: nat, s: nat): uint32 {
    v * Pow2(s) % TWO_32
  }

  lemma {:induction false} OrZero(a: nat)
    ensures Or(a, 0) == a
  {
    if a != 0 {
      OrZero(a / 2);
    }
  }

  lemma {:induction false} XorZero(a: nat)
    ensures Xor(0, a) == a
  {
    if a != 0 {
      XorZero(a / 2);
    }
  }

  lemma {:induction false} OrComm(a: nat, b: nat)
    ensures Or(a, b) == Or(b, a)
    decreases a + b
  {
    if a != 0 || b != 0 {
      OrComm(a / 2, b / 2);
    }
  }

  /** Where the low operand stays below bit k and the high one starts at bit k, or is addition. */
  lemma {:induction false} OrDisjoint(low: nat, high: nat, k: nat)
    requires low < Pow2(k)
    ensures Or(low, high * Pow2(k)) == low + high * Pow2(k)
    decreases k
  {
    if k == 0 {
      OrZero(high);
      OrComm(0, high);
    } else {
      var p := Pow2(k - 1);
      assert high * Pow2(k) == 2 * (high * p);
      OrDisjoint(low / 2, high, k - 1);
      if low == 0 && high * Pow2(k) == 0 {
      } else {
        assert (2 * (high * p)) / 2 == high * p;
      }
    }
  }

  /** Or-ing in bit k of a word below 2^(k+1) keeps the low bits and sets that bit. */
  lemma {:induction false} OrTopBit(v: nat, k: nat)
    requires v < Pow2(k + 1)
    ensures Or(v, Pow2(k)) == v % Pow2(k) + Pow2(k)
  {
    if k == 0 {
      assert Pow2(1) == 2;
      assert Or(0, 0) == 0;
    } else {
      var p := Pow2(k - 1);
      OrTopBit(v / 2, k - 1);
      assert Pow2(k) == 2 * p;
      HalfMod(v, p);
    }
  }

  lemma HalfMod(v: nat, p: nat)
    requires p > 0
    ensures 2 * ((v / 2) % p) + v % 2 == v % (2 * p)
  {
    var q := (v / 2) / p;
    var r := 2 * ((v / 2) % p) + v % 2;
    assert v == q * (2 * p) + r by {
      assert v / 2 == q * p + (v / 2) % p;
    }
    ModUnique(v, 2 * p, q, r);
  }

  lemma ModUnique(v: int, m: int, q: int, r: int)
    requires m > 0 && 0 <= r < m && v == q * m + r
    ensures v % m == r && v / m == q
  {
    var q', r' := v / m, v % m;
    assert (q - q') * m == r' - r;
    MulMono(q - q', -1, m);
    MulMono(1, q - q', m);
  }

  lemma MulMono(a: int, b: int, m: int)
    requires m >= 0
    ensures a <= b ==> a * m <= b * m
  {
  }

  lemma Pow2Add(a: nat, b: nat)
    ensures Pow2(a + b) == Pow2(a) * Pow2(b)
    decreases a
  {
    if a != 0 {
      Pow2Add(a - 1, b);
    }
  }

  /** The powers that the word sizes of this project name. */
  lemma Pow2Values()
    ensures Pow2(7) == 128 && Pow2(8) == 256 && Pow2(14) == 0x4000 && Pow2(16) == 0x1_0000
    ensures Pow2(21) == 0x20_0000 && Pow2(28) == 0x1000_0000 && Pow2(32) == TWO_32
    ensures Pow2(35) == 0x8_0000_0000
  {
    assert Pow2(7) == 128;
    Pow2Add(7, 7);
    Pow2Add(7, 14);
    Pow2Add(7, 21);
    Pow2Add(4, 28);
    Pow2Add(7, 28);
    Pow2Add(2, 14);
  }
}
