/** Bitwise operators on non-negative integers, written bit by bit, and the 64-bit words
    that Go's int64 operators work on. */
module Bits {

  function Pow2(k: nat): (p: nat)
    ensures 0 < p
  {
    if k == 0 then 1 else 2 * Pow2(k - 1)
  }

  function Or(a: nat, b: nat): nat {
    if a == 0 && b == 0 then 0
    else (if a % 2 == 1 || b % 2 == 1 then 1 else 0) + 2 * Or(a / 2, b / 2)
  }

  function And(a: nat, b: nat): nat {
    if a == 0 || b == 0 then 0
    else (if a % 2 == 1 && b % 2 == 1 then 1 else 0) + 2 * And(a / 2, b / 2)
  }

  lemma {:induction false} OrZero(a: nat)
    ensures Or(a, 0) == a
  {
    if a != 0 {
      OrZero(a / 2);
    }
  }

  /** Or of a number that ends in k zeros and one that fits in k bits is their sum. */
  lemma {:induction false} OrDisjoint(a: nat, b: nat, k: nat)
    requires b < Pow2(k)
    ensures Or(a * Pow2(k), b) == a * Pow2(k) + b
  {
    if k == 0 {
      OrZero(a);
    } else {
      var half := a * Pow2(k - 1);
      assert a * Pow2(k) == 2 * half;
      OrDisjoint(a, b / 2, k - 1);
      assert Or(2 * half, b) == (if b % 2 == 1 then 1 else 0) + 2 * Or(half, b / 2);
    }
  }

  lemma AndStep(a: nat, p: nat)
    requires 0 < a && 0 < p
    ensures And(a, 2 * p - 1) == a % 2 + 2 * And(a / 2, p - 1)
  {
    assert (2 * p - 1) / 2 == p - 1 && (2 * p - 1) % 2 == 1;
  }

  /** And with k ones is the remainder by 2^k. */
  lemma {:induction false} AndMask(a: nat, k: nat)
    ensures And(a, Pow2(k) - 1) == a % Pow2(k)
  {
    if a == 0 || k == 0 {
      assert And(a, Pow2(k) - 1) == 0;
      assert a == 0 ==> 0 % Pow2(k) == 0;
    } else {
      AndMask(a / 2, k - 1);
      AndMaskStep(a, Pow2(k - 1));
    }
  }

  lemma AndMaskStep(a: nat, p: nat)
    requires 0 < a && 0 < p && And(a / 2, p - 1) == (a / 2) % p
    ensures And(a, 2 * p - 1) == a % (2 * p)
  {
    AndStep(a, p);
    HalfMod(a, p);
  }

  lemma HalfMod(a: nat, p: nat)
    requires 0 < p
    ensures a % (2 * p) == a % 2 + 2 * ((a / 2) % p)
  {
    var q, r := (a / 2) / p, (a / 2) % p;
    assert a / 2 == q * p + r;
    assert q * (2 * p) == 2 * (q * p);
    ModUnique(a, 2 * p, q, a % 2 + 2 * r);
  }

  lemma {:induction false} MulGap(x: int, y: int, m: nat)
    requires x < y
    ensures x * m + m <= y * m
    decreases y - x
  {
    assert y * m == (y - 1) * m + m;
    if x < y - 1 {
      MulGap(x, y - 1, m);
    }
  }

  lemma ModUnique(a: nat, m: nat, q: int, r: nat)
    requires r < m && a == q * m + r
    ensures a % m == r && a / m == q
  {
    var q' := a / m;
    assert a == q' * m + a % m;
    if q' < q {
      MulGap(q', q, m);
    } else if q < q' {
      MulGap(q, q', m);
    }
  }

  const TWO_TO_THE_63: int := 0x8000_0000_0000_0000
  const TWO_TO_THE_64: int := 0x1_0000_0000_0000_0000

  /** The 64-bit word of an integer, two's complement. */
  function Word(x: int): nat {
    x % TWO_TO_THE_64
  }

  /** The int64 with the given low 64 bits. */
  function Int64(x: int): int {
    if Word(x) < TWO_TO_THE_63 then Word(x) else Word(x) - TWO_TO_THE_64
  }
}
