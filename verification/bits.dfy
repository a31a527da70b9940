/** The C integer operators the library leans on, written on natural numbers:
    exclusive-or, bitwise-and, find-last-set and powers of two. */
module Bits {

  function Pow2(k: nat): (r: nat)
    ensures r >= 1
  {
    if k == 0 then 1 else 2 * Pow2(k - 1)
  }

  /** `a ^ b` */
  function Xor(a: nat, b: nat): nat
    decreases a + b
  {
    if a == 0 && b == 0 then 0
    else 2 * Xor(a / 2, b / 2) + if a % 2 == b % 2 then 0 else 1
  }

  /** `a & b` */
  function And(a: nat, b: nat): nat
    decreases a + b
  {
    if a == 0 || b == 0 then 0
    else (a % 2) * (b % 2) + 2 * And(a / 2, b / 2)
  }

  /** flsl: one plus the index of the highest set bit, 0 for 0. */
  function Fls(x: nat): nat {
    if x == 0 then 0 else 1 + Fls(x / 2)
  }

  /** is_power2, bitops.h */
  predicate IsPower2(x: nat) {
    x != 0 && And(x, x - 1) == 0
  }

  /** roundup_pow2, bitops.h */
  function RoundUpPow2(x: nat): nat {
    if x == 0 then 1
    else if IsPower2(x) then x
    else Pow2(Fls(x))
  }

  /** x has at most k significant bits exactly when it is below 2^k. */
  lemma {:induction false} FlsAtMost(x: nat, k: nat)
    ensures Fls(x) <= k <==> x < Pow2(k)
  {
    if x != 0 && k != 0 {
      FlsAtMost(x / 2, k - 1);
    }
  }

  /** The top bit of `a ^ b` is the top bit where a and b differ. */
  lemma {:induction false} XorTopBit(a: nat, b: nat, k: nat)
    ensures Fls(Xor(a, b)) <= k <==> a / Pow2(k) == b / Pow2(k)
    decreases k
  {
    if k == 0 {
      XorZero(a, b);
    } else {
      XorTopBit(a / 2, b / 2, k - 1);
      HalfThenDivide(a, Pow2(k - 1));
      HalfThenDivide(b, Pow2(k - 1));
      if a != 0 || b != 0 {
        assert Xor(a, b) / 2 == Xor(a / 2, b / 2);
      }
    }
  }

  lemma {:induction false} XorZero(a: nat, b: nat)
    ensures Xor(a, b) == 0 <==> a == b
    decreases a + b
  {
    if a != 0 || b != 0 {
      XorZero(a / 2, b / 2);
    }
  }

  lemma HalfThenDivide(a: nat, d: nat)
    requires d >= 1
    ensures a / 2 / d == a / (2 * d)
  {
    var q, r := a / 2 / d, a / 2 % d;
    assert a == 2 * d * q + (2 * r + a % 2);
    DivideUnique(a, 2 * d, q, 2 * r + a % 2);
  }

  lemma DivideUnique(a: int, d: int, q: int, r: int)
    requires d > 0 && 0 <= r < d && a == d * q + r
    ensures a / d == q && a % d == r
  {
    var q', r' := a / d, a % d;
    assert a == d * q' + r';
    if q < q' {
      MulMonotone(d, q + 1, q');
    } else if q' < q {
      MulMonotone(d, q' + 1, q);
    }
  }

  lemma MulMonotone(d: nat, x: int, y: int)
    requires x <= y
    ensures d * x <= d * y
  {
    assert d * y - d * x == d * (y - x);
  }

  /** The sizes of bytes and words. */
  lemma Sizes()
    ensures Pow2(0) == 1 && Pow2(8) == 256 && Pow2(15) == 0x8000 && Pow2(16) == 0x1_0000
    ensures Pow2(24) == 0x100_0000 && Pow2(31) == 0x8000_0000 && Pow2(32) == 0x1_0000_0000
  {
    assert Pow2(8) == 256;
    assert Pow2(16) == 0x1_0000;
    assert Pow2(24) == 0x100_0000;
  }

  /** Masking with 2^k - 1 is the remainder modulo 2^k. */
  lemma {:induction false} MaskIsMod(x: nat, k: nat)
    ensures And(x, Pow2(k) - 1) == x % Pow2(k)
  {
    if k == 0 {
    } else if x == 0 {
    } else {
      MaskIsMod(x / 2, k - 1);
      assert (Pow2(k) - 1) / 2 == Pow2(k - 1) - 1 && (Pow2(k) - 1) % 2 == 1;
      HalfRemainder(x, Pow2(k - 1));
    }
  }

  lemma HalfRemainder(x: nat, d: nat)
    requires d > 0
    ensures x % (2 * d) == 2 * (x / 2 % d) + x % 2
  {
    var q, r := x / 2 / d, x / 2 % d;
    assert x / 2 == d * q + r;
    DivideUnique(x, 2 * d, q, 2 * r + x % 2);
  }

  /** is_power2 accepts exactly the powers of two. */
  lemma {:induction false} IsPower2Exact(x: nat)
    ensures IsPower2(x) <==> exists k: nat :: x == Pow2(k)
  {
    if IsPower2(x) {
      var k := PowerWitness(x);
    }
    forall k: nat | x == Pow2(k) ensures IsPower2(x) {
      PowerIsPower2(k);
    }
  }

  lemma {:induction false} PowerWitness(x: nat) returns (k: nat)
    requires IsPower2(x)
    ensures x == Pow2(k)
  {
    if x == 1 {
      k := 0;
    } else {
      if x % 2 == 1 {
        assert (x - 1) / 2 == x / 2;
        AndSelf(x / 2);
        assert false;
      }
      assert (x - 1) / 2 == x / 2 - 1;
      k := PowerWitness(x / 2);
      k := k + 1;
    }
  }

  lemma {:induction false} AndSelf(x: nat)
    ensures And(x, x) == x
  {
    if x != 0 {
      AndSelf(x / 2);
    }
  }

  lemma {:induction false} PowerIsPower2(k: nat)
    ensures IsPower2(Pow2(k))
  {
    if k != 0 {
      PowerIsPower2(k - 1);
      assert (Pow2(k) - 1) / 2 == Pow2(k - 1) - 1;
    }
  }

  /** roundup_pow2 returns the least power of two that is not below its argument. */
  lemma RoundUpPow2Least(x: nat)
    ensures exists k: nat :: RoundUpPow2(x) == Pow2(k)
    ensures x <= RoundUpPow2(x)
    ensures forall k: nat :: x <= Pow2(k) ==> RoundUpPow2(x) <= Pow2(k)
  {
    IsPower2Exact(x);
    if x == 0 {
      assert Pow2(0) == 1;
    } else if !IsPower2(x) {
      var f := Fls(x);
      FlsAtMost(x, f);
      forall k: nat | x <= Pow2(k) ensures Pow2(f) <= Pow2(k) {
        assert x != Pow2(k);
        FlsAtMost(x, k);
        Pow2Monotone(f, k);
      }
    }
  }

  lemma {:induction false} Pow2Monotone(a: nat, b: nat)
    requires a <= b
    ensures Pow2(a) <= Pow2(b)
  {
    if a < b {
      Pow2Monotone(a, b - 1);
    }
  }

  /** A smaller power of two divides a larger one. */
  lemma {:induction false} Pow2Divides(a: nat, b: nat)
    requires a <= b
    ensures Pow2(b) % Pow2(a) == 0
    ensures Pow2(b) == Pow2(a) * Pow2(b - a)
  {
    if a < b {
      Pow2Divides(a, b - 1);
      assert Pow2(b) == Pow2(a) * Pow2(b - a) by {
        assert Pow2(b) == 2 * (Pow2(a) * Pow2(b - 1 - a));
      }
    }
    DivideUnique(Pow2(b), Pow2(a), Pow2(b - a), 0);
  }
}
