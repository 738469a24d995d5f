/** Bitwise operations on natural numbers, and what the range coder's tests and masks compute with them. */
module Bits {

  function Pow2(k: nat): (p: nat)
    ensures p > 0
  {
    if k == 0 then 1 else 2 * Pow2(k - 1)
  }

  function Xor(a: nat, b: nat): nat
    decreases a + b
  {
    if a == 0 && b == 0 then 0 else (if a % 2 != b % 2 then 1 else 0) + 2 * Xor(a / 2, b / 2)
  }

  function And(a: nat, b: nat): nat {
    if a == 0 || b == 0 then 0 else (if a % 2 == 1 && b % 2 == 1 then 1 else 0) + 2 * And(a / 2, b / 2)
  }

  lemma {:induction false} XorIsZero(a: nat, b: nat)
    ensures Xor(a, b) == 0 <==> a == b
    decreases a + b
  {
    if a != 0 || b != 0 {
      XorIsZero(a / 2, b / 2);
    }
  }

  /** The exclusive-or reaches 2^k exactly if the numbers differ above their last k bits. */
  lemma {:induction false} XorDiffers(a: nat, b: nat, k: nat)
    ensures Xor(a, b) >= Pow2(k) <==> a / Pow2(k) != b / Pow2(k)
    decreases k
  {
    if k == 0 {
      XorIsZero(a, b);
    } else {
      XorDiffers(a / 2, b / 2, k - 1);
      HalfQuotient(a, Pow2(k - 1));
      HalfQuotient(b, Pow2(k - 1));
      if a == 0 && b == 0 {
        assert Xor(a / 2, b / 2) == 0;
      }
    }
  }

  /** Masking the last k bits is the remainder by 2^k. */
  lemma {:induction false} AndIsRemainder(a: nat, k: nat)
    ensures And(a, Pow2(k) - 1) == a % Pow2(k)
    decreases k
  {
    if k > 0 {
      var p := Pow2(k - 1);
      AndIsRemainder(a / 2, k - 1);
      HalfQuotient(a, p);
      AndOdd(a, p - 1);
      assert Pow2(k) - 1 == 2 * (p - 1) + 1;
    }
  }

  /** An odd mask keeps the last bit, and masks the others by its half. */
  lemma AndOdd(a: nat, half: nat)
    ensures And(a, 2 * half + 1) == a % 2 + 2 * And(a / 2, half)
  {
    if a == 0 {
      assert And(0, half) == 0;
    }
  }

  lemma HalfQuotient(a: nat, p: nat)
    requires p > 0
    ensures a / (2 * p) == a / 2 / p && a % (2 * p) == a % 2 + 2 * (a / 2 % p)
  {
    var q, r := a / 2 / p, a / 2 % p;
    assert a / 2 == p * q + r;
    assert a == (2 * p) * q + (2 * r + a % 2);
    QuotientIs(a, 2 * p, q, 2 * r + a % 2);
  }

  lemma QuotientIs(n: int, d: int, q: int, r: int)
    requires n == d * q + r && 0 <= r < d
    ensures n / d == q && n % d == r
  {
    var k := n / d - q;
    assert n == d * (n / d) + n % d;
    assert d * k == r - n % d;
    assert k == 0 by {
      SmallMultiple(d, k);
    }
  }

  lemma SmallMultiple(d: int, k: int)
    requires -d < d * k < d
    ensures k == 0
  {
  }

  lemma Powers()
    ensures Pow2(16) == 0x1_0000 && Pow2(24) == 0x100_0000
  {
    assert Pow2(4) == 16;
    assert Pow2(8) == 0x100;
    assert Pow2(12) == 0x1000;
    assert Pow2(16) == 0x1_0000;
    assert Pow2(20) == 0x10_0000;
  }
}
