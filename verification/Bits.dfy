/** Machine words as natural numbers: powers of two, and the bitwise operators defined
    digit by digit, so that shift/mask code can be compared with division and remainder. */
module Bits {
  import opened Arith

  const WORD: nat := 0x1_0000_0000_0000_0000

  function Pow2(k: nat): (r: nat)
    ensures r >= 1
  {
    if k == 0 then 1 else 2 * Pow2(k - 1)
  }

  /** Binary digit i of x. */
  predicate Bit(x: nat, i: nat) {
    if i == 0 then x % 2 == 1 else Bit(x / 2, i - 1)
  }

  function And(x: nat, y: nat): nat {
    if x == 0 || y == 0 then 0
    else 2 * And(x / 2, y / 2) + (if x % 2 == 1 && y % 2 == 1 then 1 else 0)
  }

  function Or(x: nat, y: nat): nat
    decreases x + y
  {
    if x == 0 then y else if y == 0 then x
    else 2 * Or(x / 2, y / 2) + (if x % 2 == 1 || y % 2 == 1 then 1 else 0)
  }

  /** Logical shift right. */
  function Shr(x: nat, s: nat): nat
    decreases s
  {
    if s == 0 then x else Shr(x / 2, s - 1)
  }

  function FloorLog2(n: nat): (r: nat) {
    if n < 2 then 0 else 1 + FloorLog2(n / 2)
  }

  lemma Pow2Literals()
    ensures Pow2(6) == 64 && Pow2(32) == 0x1_0000_0000
    ensures Pow2(58) == 0x400_0000_0000_0000
    ensures Pow2(63) == 0x8000_0000_0000_0000 && Pow2(64) == WORD
  {
    assert Pow2(6) == 64;
    assert Pow2(12) == 4096;
    assert Pow2(18) == 262144;
    assert Pow2(24) == 16777216;
    assert Pow2(30) == 1073741824;
    assert Pow2(36) == 68719476736;
    assert Pow2(42) == 4398046511104;
    assert Pow2(48) == 281474976710656;
    assert Pow2(54) == 18014398509481984;
    assert Pow2(58) == 0x400_0000_0000_0000;
    assert Pow2(60) == 1152921504606846976;
  }

  lemma {:induction false} Pow2Monotone(a: nat, b: nat)
    requires a <= b
    ensures Pow2(a) <= Pow2(b)
  {
    if a < b { Pow2Monotone(a, b - 1); }
  }

  lemma {:induction false} Pow2Sum(a: nat, b: nat)
    ensures Pow2(a) * Pow2(b) == Pow2(a + b)
  {
    if a > 0 {
      Pow2Sum(a - 1, b);
      assert Pow2(a) * Pow2(b) == 2 * (Pow2(a - 1) * Pow2(b));
    }
  }

  /** Halving commutes with division by a larger power of two. */
  lemma HalveDivMod(x: nat, p: nat)
    requires p >= 1
    ensures x / (2 * p) == (x / 2) / p
    ensures x % (2 * p) == 2 * ((x / 2) % p) + x % 2
  {
    var q, r := (x / 2) / p, (x / 2) % p;
    assert x == (2 * p) * q + (2 * r + x % 2);
    DivModUnique(x, 2 * p, q, 2 * r + x % 2);
  }

  lemma {:induction false} ShrIsDiv(x: nat, k: nat)
    ensures Shr(x, k) == x / Pow2(k)
  {
    if k > 0 {
      ShrIsDiv(x / 2, k - 1);
      HalveDivMod(x, Pow2(k - 1));
    }
  }

  lemma {:induction false} AndOnes(x: nat, n: nat)
    requires x < Pow2(n)
    ensures And(x, Pow2(n) - 1) == x
  {
    if n > 0 {
      AndOnes(x / 2, n - 1);
      assert (Pow2(n) - 1) / 2 == Pow2(n - 1) - 1;
    }
  }

  lemma {:induction false} AndEven(x: nat, m: nat)
    ensures And(x, 2 * m) == 2 * And(x / 2, m)
  {
    assert (2 * m) / 2 == m && (2 * m) % 2 == 0;
  }

  /** Masking with n ones followed by k zeros rounds down to a multiple of 2^k. */
  lemma {:induction false} AndHighMask(x: nat, n: nat, k: nat)
    requires k <= n && x < Pow2(n)
    ensures Pow2(k) <= Pow2(n)
    ensures And(x, Pow2(n) - Pow2(k)) == x - x % Pow2(k)
  {
    if k == 0 {
      AndOnes(x, n);
    } else {
      var p := Pow2(k - 1);
      AndHighMask(x / 2, n - 1, k - 1);
      AndEven(x, Pow2(n - 1) - p);
      HalveDivMod(x, p);
    }
  }

  lemma {:induction false} BitOfOr(x: nat, y: nat, i: nat)
    ensures Bit(Or(x, y), i) <==> Bit(x, i) || Bit(y, i)
    decreases i
  {
    if x == 0 { ZeroHasNoBits(i); }
    else if y == 0 { ZeroHasNoBits(i); }
    else if i > 0 { BitOfOr(x / 2, y / 2, i - 1); }
  }

  lemma {:induction false} ZeroHasNoBits(i: nat)
    ensures !Bit(0, i)
  {
    if i > 0 { ZeroHasNoBits(i - 1); }
  }

  lemma {:induction false} BitOfShr(x: nat, s: nat, i: nat)
    ensures Bit(Shr(x, s), i) <==> Bit(x, i + s)
    decreases s
  {
    if s > 0 { BitOfShr(x / 2, s - 1, i); }
  }

  lemma {:induction false} BitOfOnes(m: nat, i: nat)
    ensures Bit(Pow2(m) - 1, i) <==> i < m
    decreases m
  {
    if m == 0 { ZeroHasNoBits(i); }
    else {
      assert (Pow2(m) - 1) / 2 == Pow2(m - 1) - 1;
      if i > 0 { BitOfOnes(m - 1, i - 1); }
    }
  }

  /** Numbers with the same binary digits are equal. */
  lemma {:induction false} BitExtensionality(x: nat, y: nat)
    requires forall i: nat :: Bit(x, i) <==> Bit(y, i)
    ensures x == y
    decreases x + y
  {
    if x + y > 0 {
      assert Bit(x, 0) <==> Bit(y, 0);
      forall i: nat ensures Bit(x / 2, i) <==> Bit(y / 2, i) {
        assert Bit(x, i + 1) <==> Bit(y, i + 1);
      }
      if x / 2 + y / 2 < x + y { BitExtensionality(x / 2, y / 2); }
    }
  }

  lemma {:induction false} TopBit(n: nat)
    requires n > 0
    ensures Bit(n, FloorLog2(n))
    ensures forall i :: i > FloorLog2(n) ==> !Bit(n, i)
  {
    if n == 1 {
      forall i: nat | i > 0 ensures !Bit(n, i) { ZeroHasNoBits(i - 1); }
    } else {
      TopBit(n / 2);
    }
  }

  lemma {:induction false} FloorLog2Bounds(n: nat)
    requires n > 0
    ensures Pow2(FloorLog2(n)) <= n < Pow2(FloorLog2(n) + 1)
  {
    if n > 1 { FloorLog2Bounds(n / 2); }
  }

  lemma {:induction false} FloorLog2OfPow2(k: nat)
    ensures FloorLog2(Pow2(k)) == k
  {
    if k > 0 { FloorLog2OfPow2(k - 1); }
  }
}
