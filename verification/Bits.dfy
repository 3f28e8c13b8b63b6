/** Bit operations on 64-bit words, with the words as numbers below 2^64. */
module Bits {
  import opened Words

  function Pow2(n: nat): (p: nat)
    ensures p > 0
  {
    if n == 0 then 1 else 2 * Pow2(n - 1)
  }

  /** Bit `d` of `x`. */
  predicate Bit(x: nat, d: nat) {
    if d == 0 then x % 2 == 1 else Bit(x / 2, d - 1)
  }

  /** `x << 1` on 64 bits. */
  function Double(x: uint64): uint64 {
    if x < 0x8000_0000_0000_0000 then 2 * x else 2 * (x - 0x8000_0000_0000_0000)
  }

  /** `x << k` on 64 bits. */
  function Shl(x: uint64, k: nat): uint64 {
    if k == 0 then x else Double(Shl(x, k - 1))
  }

  function And(x: nat, y: nat): nat {
    if x == 0 then 0 else 2 * And(x / 2, y / 2) + (if x % 2 == 1 && y % 2 == 1 then 1 else 0)
  }

  function Or(x: nat, y: nat): nat {
    if x == 0 then y else 2 * Or(x / 2, y / 2) + (if x % 2 == 1 || y % 2 == 1 then 1 else 0)
  }

  lemma Powers()
    ensures Pow2(63) == 0x8000_0000_0000_0000 && Pow2(64) == TWO_64
  {
    Pow2Byte(0); Pow2Byte(8); Pow2Byte(16); Pow2Byte(24); Pow2Byte(32); Pow2Byte(40); Pow2Byte(48); Pow2Byte(56);
  }

  lemma Pow2Byte(n: nat)
    ensures Pow2(n + 8) == 256 * Pow2(n)
  {
    assert Pow2(n + 2) == 4 * Pow2(n) && Pow2(n + 4) == 4 * Pow2(n + 2);
    assert Pow2(n + 6) == 4 * Pow2(n + 4) && Pow2(n + 8) == 4 * Pow2(n + 6);
  }

  lemma {:induction false} OrFits(x: nat, y: nat, n: nat)
    requires x < Pow2(n) && y < Pow2(n)
    ensures Or(x, y) < Pow2(n)
  {
    if x != 0 { OrFits(x / 2, y / 2, n - 1); }
  }

  lemma {:induction false} OrBit(x: nat, y: nat, d: nat)
    ensures Bit(Or(x, y), d) <==> Bit(x, d) || Bit(y, d)
  {
    if x == 0 {
      ZeroBit(d);
    } else if d > 0 {
      OrBit(x / 2, y / 2, d - 1);
    }
  }

  lemma {:induction false} ZeroBit(d: nat)
    ensures !Bit(0, d)
  {
    if d > 0 { ZeroBit(d - 1); }
  }

  /** Dropping bit `n` leaves the bits below it. */
  lemma {:induction false} DropBit(x: nat, n: nat, d: nat)
    requires d < n && Pow2(n) <= x
    ensures Bit(x - Pow2(n), d) <==> Bit(x, d)
  {
    if d > 0 { DropBit(x / 2, n - 1, d - 1); }
  }

  lemma DoubleBit(x: uint64, d: nat)
    requires d < 64
    ensures Bit(Double(x), d) <==> d > 0 && Bit(x, d - 1)
  {
    Powers();
    if d > 0 && x >= Pow2(63) {
      DropBit(x, 63, d - 1);
    }
  }

  /** A left shift moves every bit up and fills with zeros. */
  lemma {:induction false} ShlBit(x: uint64, k: nat, d: nat)
    requires d < 64
    ensures Bit(Shl(x, k), d) <==> k <= d && Bit(x, d - k)
  {
    if k > 0 {
      DoubleBit(Shl(x, k - 1), d);
      if d > 0 { ShlBit(x, k - 1, d - 1); }
    }
  }

  lemma {:induction false} ShlOne(k: nat)
    requires k < 64
    ensures Shl(1, k) == Pow2(k)
  {
    if k > 0 {
      Powers();
      ShlOne(k - 1);
      Pow2Mono(k - 1, 62);
    }
  }

  lemma {:induction false} Pow2Mono(a: nat, b: nat)
    requires a <= b
    ensures Pow2(a) <= Pow2(b)
    decreases b - a
  {
    if a < b { Pow2Mono(a + 1, b); }
  }

  lemma {:induction false} AndPow2(x: nat, k: nat)
    ensures And(x, Pow2(k)) != 0 <==> Bit(x, k)
  {
    if x == 0 {
      ZeroBit(k);
    } else if k > 0 {
      AndPow2(x / 2, k - 1);
    } else {
      AndZero(x / 2);
    }
  }

  lemma {:induction false} AndZero(x: nat)
    ensures And(x, 0) == 0
  {
    if x != 0 { AndZero(x / 2); }
  }

  /** Masking with `1 << k` tests bit `k`. */
  lemma MaskTestsBit(x: uint64, k: nat)
    requires k < 64
    ensures And(x, Shl(1, k)) != 0 <==> Bit(x, k)
  {
    ShlOne(k);
    AndPow2(x, k);
  }
}
