/** Numbers as rows of bits: powers of two and exclusive or. */
module Bits {
  import opened Arith
  import opened Bytes

  function Pow2(n: nat): (r: nat)
    ensures r > 0
  {
    if n == 0 then 1 else 2 * Pow2(n - 1)
  }

  lemma {:induction false} Pow2Mono(a: nat, b: nat)
    requires a <= b
    ensures Pow2(a) <= Pow2(b)
    decreases b
  {
    if a < b {
      Pow2Mono(a, b - 1);
    }
  }

  lemma Twice(a: nat, b: nat)
    ensures a * (2 * b) == 2 * (a * b)
  {
    Distribute(a, b, b);
  }

  lemma {:induction false} Pow2Add(a: nat, b: nat)
    ensures Pow2(a + b) == Pow2(a) * Pow2(b)
    decreases b
  {
    if b > 0 {
      Pow2Add(a, b - 1);
      Twice(Pow2(a), Pow2(b - 1));
    }
  }

  lemma SomePowers()
    ensures Pow2(8) == 0x100 && Pow2(16) == 0x1_0000 && Pow2(32) == TWO_32 && Pow2(64) == TWO_64
  {
    assert Pow2(4) == 16;
    Pow2Add(4, 4);
    Pow2Add(8, 8);
    Pow2Add(16, 16);
    Pow2Add(32, 32);
  }

  /** Bit k of a. */
  function Bit(a: nat, k: nat): (r: nat)
    ensures r < 2
  {
    if k == 0 then a % 2 else Bit(a / 2, k - 1)
  }

  /** The number whose bits are those in which a and b differ. */
  function Xor(a: nat, b: nat): nat
    decreases a + b
  {
    if a == 0 && b == 0 then 0 else (a % 2 + b % 2) % 2 + 2 * Xor(a / 2, b / 2)
  }

  lemma {:induction false} BitOfXor(a: nat, b: nat, k: nat)
    ensures Bit(Xor(a, b), k) == (Bit(a, k) + Bit(b, k)) % 2
    decreases k
  {
    if a == 0 && b == 0 {
      BitOfZero(k);
    } else {
      var low, high := (a % 2 + b % 2) % 2, Xor(a / 2, b / 2);
      assert Xor(a, b) == low + 2 * high;
      hide Xor;
      DivUnique(low + 2 * high, 2, high, low);
      if k > 0 {
        BitOfXor(a / 2, b / 2, k - 1);
      }
    }
  }

  lemma {:induction false} BitOfZero(k: nat)
    ensures Bit(0, k) == 0
  {
    if k > 0 {
      BitOfZero(k - 1);
    }
  }

  lemma {:induction false} XorBound(a: nat, b: nat, n: nat)
    requires a < Pow2(n) && b < Pow2(n)
    ensures Xor(a, b) < Pow2(n)
    decreases n
  {
    if n > 0 {
      XorBound(a / 2, b / 2, n - 1);
    }
  }

  lemma {:induction false} XorZero(a: nat)
    ensures Xor(a, 0) == a
  {
    if a > 0 {
      XorZero(a / 2);
    }
  }

  /** Wrapping at 64 bits leaves the lower bits alone. */
  lemma {:induction false} LowBits(a: nat, n: nat, k: nat)
    requires k < n
    ensures Bit(a % Pow2(n), k) == Bit(a, k)
    decreases n
  {
    var p := Pow2(n - 1);
    DivMod(a, 2 * p);
    DivMod(a / 2, p);
    var (q, r) := (a / (2 * p), a % (2 * p));
    assert q * (2 * p) == 2 * (q * p);
    DivUnique(a / 2, p, q, r / 2);
    assert r % 2 == a % 2;
    if k > 0 {
      LowBits(a / 2, n - 1, k - 1);
    }
  }

  /** A number below 2^n is its lowest n bits. */
  lemma {:induction false} SameBits(a: nat, b: nat, n: nat)
    requires a < Pow2(n) && b < Pow2(n) && forall k :: 0 <= k < n ==> Bit(a, k) == Bit(b, k)
    ensures a == b
    decreases n
  {
    if n > 0 {
      assert Bit(a, 0) == Bit(b, 0);
      forall k | 0 <= k < n - 1
        ensures Bit(a / 2, k) == Bit(b / 2, k)
      {
        assert Bit(a, k + 1) == Bit(b, k + 1);
      }
      SameBits(a / 2, b / 2, n - 1);
    }
  }

  /** Exclusive or of two 64-bit words. */
  function Xor64(a: Word64, b: Word64): Word64 {
    SomePowers();
    XorBound(a, b, 64);
    Xor(a, b)
  }
}
