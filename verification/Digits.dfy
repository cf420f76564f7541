/** Positional notation: the digits of a number in any base, most significant first. */
module Digits {

  ghost predicate IsDigits(b: nat, s: seq<int>) {
    forall i :: 0 <= i < |s| ==> 0 <= s[i] < b
  }

  function Value(b: nat, s: seq<int>): int {
    if s == [] then 0 else Value(b, s[..|s| - 1]) * b + s[|s| - 1]
  }

  /** The digits of n, none for zero. */
  function Expand(b: nat, n: nat): seq<int>
    requires b >= 2
  {
    if n == 0 then [] else
      DivFacts(n, b);
      Expand(b, n / b) + [n % b]
  }

  ghost function Pow(b: nat, k: nat): (p: nat) {
    if k == 0 then 1 else b * Pow(b, k - 1)
  }

  lemma {:induction false} ValueNonNegative(b: nat, s: seq<int>)
    requires IsDigits(b, s)
    ensures Value(b, s) >= 0
  {
    if s != [] {
      ValueNonNegative(b, s[..|s| - 1]);
    }
  }

  lemma ValueAppend(b: nat, s: seq<int>, d: int)
    ensures Value(b, s + [d]) == Value(b, s) * b + d
  {
    assert (s + [d])[..|s|] == s;
  }

  lemma Multiple(k: int, b: nat)
    requires 0 - b < k * b < b
    ensures k == 0
  {
    if k > 0 { Product(k, b); }
    if k < 0 { Product(-k, b); }
  }

  lemma Product(x: int, b: nat)
    requires x > 0 && b >= 1
    ensures x * b >= x && x * b >= b
  {
  }

  lemma Distribute(x: int, y: int, b: int)
    ensures (x - y) * b == x * b - y * b
  {
  }

  lemma DivFacts(n: nat, b: nat)
    requires b >= 2
    ensures n == n / b * b + n % b && 0 <= n % b < b
    ensures 0 <= n / b && (n > 0 ==> n / b < n)
  {
  }

  lemma DivMod(q: int, b: nat, d: int)
    requires b >= 2 && 0 <= d < b && q * b + d >= 0
    ensures (q * b + d) / b == q && (q * b + d) % b == d
  {
    var x := q * b + d;
    DivFacts(x, b);
    Distribute(q, x / b, b);
    Multiple(q - x / b, b);
  }

  /** The expansion is a numeral of n without a leading zero. */
  lemma {:induction false} ExpandValue(b: nat, n: nat)
    requires b >= 2
    ensures IsDigits(b, Expand(b, n)) && Value(b, Expand(b, n)) == n
    ensures n > 0 ==> Expand(b, n) != [] && Expand(b, n)[0] != 0
  {
    if n > 0 {
      DivFacts(n, b);
      ExpandValue(b, n / b);
      ValueAppend(b, Expand(b, n / b), n % b);
    }
  }

  lemma {:induction false} ValuePositive(b: nat, s: seq<int>)
    requires b >= 2 && IsDigits(b, s) && s != [] && s[0] != 0
    ensures Value(b, s) > 0
  {
    if |s| > 1 {
      ValuePositive(b, s[..|s| - 1]);
      Product(Value(b, s[..|s| - 1]), b);
    } else {
      assert Value(b, s[..0]) == 0;
    }
  }

  /** A numeral without a leading zero is the expansion of its value. */
  lemma {:induction false} ValueExpand(b: nat, s: seq<int>)
    requires b >= 2 && IsDigits(b, s) && (s != [] ==> s[0] != 0)
    ensures Value(b, s) >= 0 && Expand(b, Value(b, s)) == s
  {
    ValueNonNegative(b, s);
    if s != [] {
      var t, d := s[..|s| - 1], s[|s| - 1];
      ValueExpand(b, t);
      ValuePositive(b, s);
      DivMod(Value(b, t), b, d);
      assert s == t + [d];
    }
  }

  /** How many zeros come first. */
  ghost function ZeroCount(s: seq<int>): (z: nat)
    ensures z <= |s| && (forall i :: 0 <= i < z ==> s[i] == 0) && (z < |s| ==> s[z] != 0)
  {
    if s == [] || s[0] != 0 then 0
    else
      var z := ZeroCount(s[1..]);
      assert forall i :: 0 < i <= z ==> s[i] == s[1..][i - 1];
      z + 1
  }

  function Zeros(k: nat): seq<int> {
    seq(k, _ => 0)
  }

  lemma {:induction false} LeadingZeros(b: nat, k: nat, s: seq<int>)
    ensures Value(b, Zeros(k) + s) == Value(b, s)
  {
    var t := Zeros(k) + s;
    if s != [] {
      assert t[..|t| - 1] == Zeros(k) + s[..|s| - 1];
      LeadingZeros(b, k, s[..|s| - 1]);
    } else if k > 0 {
      assert t[..k - 1] == Zeros(k - 1) + s;
      LeadingZeros(b, k - 1, s);
    } else {
      assert t == s;
    }
  }

  /** The same number in another base, with as many leading zeros as before. */
  ghost function Transcode(b: nat, c: nat, s: seq<int>): (t: seq<int>)
    requires c >= 2 && IsDigits(b, s)
  {
    ValueNonNegative(b, s);
    Zeros(ZeroCount(s)) + Expand(c, Value(b, s))
  }

  lemma ZerosPart(b: nat, s: seq<int>)
    requires IsDigits(b, s)
    ensures var z := ZeroCount(s); s == Zeros(z) + s[z..] && Value(b, s) == Value(b, s[z..])
  {
    var z := ZeroCount(s);
    assert s == Zeros(z) + s[z..];
    LeadingZeros(b, z, s[z..]);
  }

  lemma TranscodeParts(b: nat, c: nat, s: seq<int>)
    requires b >= 2 && c >= 2 && IsDigits(b, s)
    ensures var t := Transcode(b, c, s);
      IsDigits(c, t) && Value(c, t) == Value(b, s) && ZeroCount(t) == ZeroCount(s)
  {
    ValueNonNegative(b, s);
    var z, n := ZeroCount(s), Value(b, s);
    var e := Expand(c, n);
    var t := Transcode(b, c, s);
    ExpandValue(c, n);
    LeadingZeros(c, z, e);
    assert forall i :: 0 <= i < z ==> t[i] == 0;
    assert e != [] ==> t[z] == e[0];
    var y := ZeroCount(t);
    assert y >= z;
  }

  /** Changing the base twice gives back every numeral, leading zeros included. */
  lemma TranscodeInverse(b: nat, c: nat, s: seq<int>)
    requires b >= 2 && c >= 2 && IsDigits(b, s)
    ensures IsDigits(c, Transcode(b, c, s)) && Transcode(c, b, Transcode(b, c, s)) == s
  {
    TranscodeParts(b, c, s);
    ZerosPart(b, s);
    ValueExpand(b, s[ZeroCount(s)..]);
  }

  // ---------------------------------------------------------------- sizes

  lemma {:induction false} PowPositive(b: nat, k: nat)
    requires b >= 1
    ensures Pow(b, k) >= 1
  {
    if k > 0 {
      PowPositive(b, k - 1);
      Product(Pow(b, k - 1), b);
    }
  }

  lemma {:induction false} PowAdd(b: nat, j: nat, k: nat)
    ensures Pow(b, j + k) == Pow(b, j) * Pow(b, k)
  {
    if j > 0 {
      PowAdd(b, j - 1, k);
      Associate(b, Pow(b, j - 1), Pow(b, k));
    }
  }

  lemma Associate(a: int, b: int, c: int)
    ensures a * (b * c) == a * b * c
  {
  }

  lemma {:induction false} PowMul(b: nat, j: nat, k: nat)
    ensures Pow(Pow(b, j), k) == Pow(b, j * k)
  {
    if k > 0 {
      PowMul(b, j, k - 1);
      PowAdd(b, j, j * (k - 1));
      assert j + j * (k - 1) == j * k;
    }
  }

  lemma {:induction false} PowMonotone(b: nat, c: nat, k: nat)
    requires b <= c
    ensures Pow(b, k) <= Pow(c, k)
  {
    if k > 0 {
      PowMonotone(b, c, k - 1);
      ProductMonotone(b, c, Pow(b, k - 1), Pow(c, k - 1));
    }
  }

  lemma ProductMonotone(a: nat, b: nat, x: nat, y: nat)
    requires a <= b && x <= y
    ensures a * x <= b * y
  {
  }

  lemma PowIncreasing(b: nat, j: nat, k: nat)
    requires b >= 1 && j <= k
    ensures Pow(b, j) <= Pow(b, k)
  {
    PowAdd(b, j, k - j);
    PowPositive(b, k - j);
    PowPositive(b, j);
    ProductMonotone(1, Pow(b, k - j), Pow(b, j), Pow(b, j));
  }

  /** k digits make less than b to the k, and at least b to the k - 1 without a leading zero. */
  lemma {:induction false} ValueBounds(b: nat, s: seq<int>)
    requires b >= 2 && IsDigits(b, s)
    ensures 0 <= Value(b, s) < Pow(b, |s|)
    ensures s != [] && s[0] != 0 ==> Pow(b, |s| - 1) <= Value(b, s)
  {
    if s != [] {
      var t := s[..|s| - 1];
      ValueBounds(b, t);
      BoundStep(b, Value(b, t), Pow(b, |t|), s[|s| - 1]);
      if |s| > 1 && s[0] != 0 {
        ProductMonotone(Pow(b, |t| - 1), Value(b, t), b, b);
      }
    }
  }

  lemma BoundStep(b: nat, v: nat, p: nat, d: int)
    requires v < p && 0 <= d < b
    ensures 0 <= v * b + d < b * p
  {
    ProductMonotone(v + 1, p, b, b);
  }
}
