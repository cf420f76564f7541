/** The byte formats of CBigNum over mathematical integers (src/bignum.h). */
module Bignum {

  import opened Digits

  function Abs(n: int): nat {
    if n < 0 then -n else n
  }

  function Reverse<T>(s: seq<T>): (r: seq<T>)
    ensures |r| == |s| && forall i :: 0 <= i < |s| ==> r[i] == s[|s| - 1 - i]
  {
    seq(|s|, i requires 0 <= i < |s| => s[|s| - 1 - i])
  }

  /** BN_bn2mpi after its four length bytes: sign and magnitude, most significant byte first. */
  function Mpi(n: int): seq<int> {
    var m := Expand(256, Abs(n));
    if m == [] then []
    else if m[0] >= 128 then [if n < 0 then 128 else 0] + m
    else if n < 0 then m[0 := m[0] + 128]
    else m
  }

  /** BN_mpi2bn on what follows the length. */
  function FromMpi(p: seq<int>): int {
    if p == [] then 0
    else if p[0] >= 128 then -Value(256, p[0 := p[0] - 128])
    else Value(256, p)
  }

  lemma NoDigits(n: int)
    ensures Expand(256, Abs(n)) == [] ==> n == 0
  {
  }

  lemma MpiDigits(n: int)
    ensures IsDigits(256, Mpi(n))
  {
    ExpandValue(256, Abs(n));
    hide Expand, Value;
  }

  /** A magnitude whose top bit is free, read back with the sign bit in it. */
  lemma SignBit(m: seq<int>)
    requires m != [] && 0 <= m[0] < 128
    ensures FromMpi(m[0 := m[0] + 128]) == -Value(256, m) && FromMpi(m) == Value(256, m)
  {
    assert m[0 := m[0] + 128][0 := m[0]] == m;
  }

  /** A magnitude whose top bit is taken, read back after a sign byte. */
  lemma SignByte(m: seq<int>)
    ensures FromMpi([128] + m) == -Value(256, m) && FromMpi([0] + m) == Value(256, m)
  {
    LeadingZeros(256, 1, m);
    assert Zeros(1) == [0];
    assert ([128] + m)[0 := 0] == [0] + m;
  }

  lemma MpiRoundTrip(n: int)
    ensures IsDigits(256, Mpi(n)) && FromMpi(Mpi(n)) == n
  {
    MpiDigits(n);
    NoDigits(n);
    ExpandValue(256, Abs(n));
    hide Expand, Value, FromMpi;
    var m := Expand(256, Abs(n));
    FromNothing();
    if m != [] {
      if m[0] >= 128 { SignByte(m); } else { SignBit(m); }
    }
  }

  lemma FromNothing()
    ensures FromMpi([]) == 0
  {
  }

  /** Bytes least significant first, the top bit being the sign. */
  function SetVch(vch: seq<int>): int {
    FromMpi(Reverse(vch))
  }

  function GetVch(n: int): seq<int> {
    Reverse(Mpi(n))
  }

  lemma VchRoundTrip(n: int)
    ensures SetVch(GetVch(n)) == n
  {
    MpiRoundTrip(n);
    assert Reverse(Reverse(Mpi(n))) == Mpi(n);
  }
}
