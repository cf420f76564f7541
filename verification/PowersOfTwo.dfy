/** Powers of two. */
module PowersOfTwo {

  function Pow2(n: nat): (p: nat)
    ensures p > n
  {
    if n == 0 then 1 else 2 * Pow2(n - 1)
  }

  lemma {:induction false} PowSum(j: nat, k: nat)
    ensures Pow2(j + k) == Pow2(j) * Pow2(k)
  {
    if j > 0 {
      PowSum(j - 1, k);
      Regroup(Pow2(j - 1), Pow2(k));
    }
  }

  lemma Regroup(a: int, b: int)
    ensures 2 * a * b == 2 * (a * b)
  {
  }

  lemma PowDoubled(k: nat, p: nat)
    requires Pow2(k) == p
    ensures Pow2(2 * k) == p * p
  {
    hide Pow2;
    PowSum(k, k);
  }

  lemma {:induction false} PowRises(j: nat, k: nat)
    requires j <= k
    ensures Pow2(j) <= Pow2(k)
  {
    if j < k { PowRises(j, k - 1); }
  }
}
