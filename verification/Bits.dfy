/** Bits of an unsigned word. */
module Bits {

  import opened Digits
  import opened PowersOfTwo

  function Bit(m: nat, k: nat): (b: nat)
    ensures b <= 1
    decreases k
  {
    if k == 0 then m % 2 else Bit(m / 2, k - 1)
  }

  function Or(a: nat, b: nat): nat
    decreases a + b
  {
    if a == 0 && b == 0 then 0
    else 2 * Or(a / 2, b / 2) + if a % 2 == 1 || b % 2 == 1 then 1 else 0
  }

  function ShiftLeft(a: nat, r: nat): nat
    decreases r
  {
    if r == 0 then a else 2 * ShiftLeft(a, r - 1)
  }

  lemma OrHalves(a: nat, b: nat)
    requires a > 0 || b > 0
    ensures Or(a, b) / 2 == Or(a / 2, b / 2) && Or(a, b) % 2 == if a % 2 == 1 || b % 2 == 1 then 1 else 0
  {
    TwiceAnd(Or(a / 2, b / 2), if a % 2 == 1 || b % 2 == 1 then 1 else 0);
  }

  lemma TwiceAnd(x: nat, d: nat)
    requires d <= 1
    ensures (2 * x + d) / 2 == x && (2 * x + d) % 2 == d
  {
  }

  lemma {:induction false} BitOr(a: nat, b: nat, k: nat)
    ensures Bit(Or(a, b), k) == if Bit(a, k) == 1 || Bit(b, k) == 1 then 1 else 0
    decreases k
  {
    if a == 0 && b == 0 {
      BitZero(k);
    } else {
      OrHalves(a, b);
      hide Or;
      if k > 0 { BitOr(a / 2, b / 2, k - 1); }
    }
  }

  lemma {:induction false} BitZero(k: nat)
    ensures Bit(0, k) == 0
    decreases k
  {
    if k > 0 { BitZero(k - 1); }
  }

  /** A single bit moved to place r. */
  lemma {:induction false} BitShifted(b: nat, r: nat, k: nat)
    requires b <= 1
    ensures Bit(ShiftLeft(b, r), k) == if k == r then b else 0
    decreases k
  {
    if r == 0 {
      if k > 0 { BitZero(k - 1); }
    } else if k > 0 {
      assert ShiftLeft(b, r) / 2 == ShiftLeft(b, r - 1);
      BitShifted(b, r - 1, k - 1);
    }
  }

  /** A word is its bits. */
  lemma {:induction false} BitsDetermine(m: nat, n: nat)
    requires forall k: nat :: Bit(m, k) == Bit(n, k)
    ensures m == n
    decreases m + n
  {
    assert Bit(m, 0) == Bit(n, 0);
    if m + n > 0 {
      forall k: nat ensures Bit(m / 2, k) == Bit(n / 2, k) {
        assert Bit(m, k + 1) == Bit(n, k + 1);
      }
      BitsDetermine(m / 2, n / 2);
    }
  }

  lemma {:induction false} BitDivides(m: nat, k: nat)
    ensures Bit(m, k) == m / Pow2(k) % 2
    decreases k
  {
    if k > 0 {
      BitDivides(m / 2, k - 1);
      Halved(m, Pow2(k - 1));
    } else {
      assert m / 1 == m;
    }
  }

  lemma Halved(m: nat, p: nat)
    requires p >= 1
    ensures m / 2 / p == m / (2 * p)
  {
    var q, r := m / 2 / p, m / 2 % p;
    assert m / 2 == q * p + r;
    Twice(q, p);
    DivMod(q, 2 * p, 2 * r + m % 2);
  }

  lemma {:induction false} NoHighBits(m: nat, k: nat)
    requires forall i: nat :: i >= k ==> Bit(m, i) == 0
    ensures m < Pow2(k)
    decreases m + k
  {
    if k > 0 {
      forall i: nat | i >= k - 1 ensures Bit(m / 2, i) == 0 { assert Bit(m, i + 1) == 0; }
      NoHighBits(m / 2, k - 1);
    } else if m > 0 {
      forall i: nat ensures Bit(m, i) == Bit(0, i) { BitZero(i); }
      BitsDetermine(m, 0);
    }
  }

  function And(a: nat, b: nat): nat
    decreases a
  {
    if a == 0 then 0
    else 2 * And(a / 2, b / 2) + if a % 2 == 1 && b % 2 == 1 then 1 else 0
  }

  /** Clearing the lowest bit of a positive number leaves nothing exactly for powers of two. */
  lemma {:induction false} SingleBit(n: nat)
    requires n > 0
    ensures And(n, n - 1) == 0 <==> exists k: nat :: n == Pow2(k)
  {
    var m := n / 2;
    if n % 2 == 1 {
      assert n == 2 * m + 1 && (n - 1) / 2 == m && (n - 1) % 2 == 0;
      AndItself(m);
      OddPower(n);
      assert Pow2(0) == 1;
    } else {
      assert n == 2 * m && (n - 1) / 2 == m - 1;
      SingleBit(m);
      EvenPower(m);
    }
  }

  lemma {:induction false} AndItself(n: nat)
    ensures And(n, n) == n
  {
    if n > 0 { AndItself(n / 2); }
  }

  lemma OddPower(n: nat)
    requires n % 2 == 1
    ensures (exists k: nat :: n == Pow2(k)) ==> n == 1
  {
    forall k: nat ensures n == Pow2(k) ==> k == 0 {}
  }

  lemma EvenPower(m: nat)
    requires m > 0
    ensures (exists k: nat :: m == Pow2(k)) <==> exists k: nat :: 2 * m == Pow2(k)
  {
    if k: nat :| m == Pow2(k) {
      assert 2 * m == Pow2(k + 1);
    }
    if k: nat :| 2 * m == Pow2(k) {
      assert Pow2(0) == 1 && k != 0;
      assert m == Pow2(k - 1);
    }
  }

  /** Masking with the upper n - k of n bits rounds down to a multiple of 2 to the k. */
  lemma {:induction false} MaskRoundsDown(a: nat, n: nat, k: nat)
    requires k <= n && a < Pow2(n)
    ensures Pow2(k) <= Pow2(n) && And(a, Pow2(n) - Pow2(k)) == a - a % Pow2(k)
    decreases n
  {
    if n == 0 {
      assert a == 0;
    } else {
      var m := if k == 0 then 0 else k - 1;
      MaskRoundsDown(a / 2, n - 1, m);
      MaskStep(a, n, k);
      if k == 0 {
        assert a / 2 % Pow2(0) == 0;
      } else {
        ModHalf(a, Pow2(k - 1));
      }
    }
  }

  /** One bit of the mask. */
  lemma MaskStep(a: nat, n: nat, k: nat)
    requires 0 < n && k <= n && Pow2(if k == 0 then 0 else k - 1) <= Pow2(n - 1)
    ensures Pow2(k) <= Pow2(n)
    ensures k == 0 ==> And(a, Pow2(n) - Pow2(k)) == 2 * And(a / 2, Pow2(n - 1) - Pow2(0)) + a % 2
    ensures k > 0 ==> And(a, Pow2(n) - Pow2(k)) == 2 * And(a / 2, Pow2(n - 1) - Pow2(k - 1))
  {
    AndHalves(a, if k == 0 then Pow2(n - 1) - Pow2(0) else Pow2(n - 1) - Pow2(k - 1), if k == 0 then 1 else 0);
  }

  lemma AndHalves(a: nat, b: nat, d: nat)
    requires d <= 1
    ensures And(a, 2 * b + d) == 2 * And(a / 2, b) + if a % 2 == 1 && d == 1 then 1 else 0
  {
    TwiceAnd(b, d);
  }

  lemma ModHalf(a: nat, p: nat)
    requires p > 0
    ensures a % (2 * p) == 2 * (a / 2 % p) + a % 2
  {
    var q, r := a / 2 / p, a / 2 % p;
    assert a / 2 == q * p + r;
    Twice(q, p);
    DivMod(q, 2 * p, 2 * r + a % 2);
  }

  lemma Twice(q: int, p: int)
    ensures q * (2 * p) == 2 * (q * p)
  {
  }
}
