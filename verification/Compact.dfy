/** The compact form of targets and the 64-bit conversions of CBigNum (src/bignum.h). */
module Compact {

  import opened Digits
  import opened Bignum

  // ---------------------------------------------------------------- splitting numerals

  lemma {:induction false} ValueConcat(b: nat, s: seq<int>, t: seq<int>)
    ensures Value(b, s + t) == Value(b, s) * Pow(b, |t|) + Value(b, t)
  {
    if t == [] {
      assert s + t == s;
    } else {
      var n := |t| - 1;
      assert (s + t)[..|s| + n] == s + t[..n];
      ValueConcat(b, s, t[..n]);
      Regroup(Value(b, s), Pow(b, n), b, Value(b, t[..n]));
    }
  }

  lemma Regroup(v: int, p: int, b: int, w: int)
    ensures (v * p + w) * b == v * (b * p) + w * b
  {
    Associate(v, p, b);
  }

  lemma {:induction false} ValueZeros(b: nat, k: nat)
    ensures Value(b, Zeros(k)) == 0
  {
    LeadingZeros(b, k, []);
    assert Zeros(k) + [] == Zeros(k);
  }

  /** Quotient and remainder of a numeral by a power of the base. */
  lemma SplitNumeral(b: nat, s: seq<int>, k: nat)
    requires b >= 2 && IsDigits(b, s) && k <= |s|
    ensures var p := Pow(b, |s| - k);
      Value(b, s) == Value(b, s[..k]) * p + Value(b, s[k..]) && 0 <= Value(b, s[k..]) < p
  {
    assert s == s[..k] + s[k..];
    ValueConcat(b, s[..k], s[k..]);
    ValueBounds(b, s[k..]);
  }

  // ---------------------------------------------------------------- the MPI of a number that is not negative

  lemma MpiValue(n: nat)
    ensures IsDigits(256, Mpi(n)) && Value(256, Mpi(n)) == n && (n == 0 <==> Mpi(n) == [])
    ensures n > 0 ==> Mpi(n)[0] < 128
  {
    MpiRoundTrip(n);
    ExpandValue(256, n);
  }

  /** The length is least: one byte less could not hold the number and a zero sign bit. */
  lemma MpiSize(n: nat)
    requires n > 0
    ensures var k := |Mpi(n)|; k >= 1 && n < 128 * Pow(256, k - 1) && (k >= 2 ==> 128 * Pow(256, k - 2) <= n)
  {
    hide Expand, Value, Pow;
    var m := Expand(256, n);
    ExpandValue(256, n);
    SplitNumeral(256, m, 1);
    ValueBounds(256, m);
    OneDigit(256, m);
    var p := Pow(256, |m| - 1);
    if m[0] >= 128 {
      PowStep(256, |m|);
      ProductMonotone(128, m[0], p, p);
    } else {
      if |m| >= 2 { PowStep(256, |m| - 1); }
      ProductMonotone(m[0] + 1, 128, p, p);
    }
  }

  lemma OneDigit(b: nat, s: seq<int>)
    requires s != []
    ensures Value(b, s[..1]) == s[0]
  {
    assert s[..1] == [] + [s[0]];
    ValueAppend(b, [], s[0]);
  }

  lemma PowStep(b: nat, k: nat)
    requires k >= 1
    ensures Pow(b, k) == b * Pow(b, k - 1)
  {
  }

  // ---------------------------------------------------------------- compact form

  const UINT := 0x1_0000_0000

  function ByteAt(p: seq<int>, i: nat): int {
    if i < |p| then p[i] else 0
  }

  /** The length of the MPI and its first three bytes. */
  function GetCompact(n: int): int {
    var p := Mpi(n);
    (|p| * 0x100_0000 + ByteAt(p, 0) * 0x1_0000 + ByteAt(p, 1) * 0x100 + ByteAt(p, 2)) % UINT
  }

  function CompactBytes(nCompact: nat): (p: seq<int>)
    requires nCompact < UINT
    ensures |p| == nCompact / 0x100_0000
  {
    var nSize := nCompact / 0x100_0000;
    seq(nSize, i => if i == 0 then nCompact / 0x1_0000 % 0x100
                    else if i == 1 then nCompact / 0x100 % 0x100
                    else if i == 2 then nCompact % 0x100
                    else 0)
  }

  function SetCompact(nCompact: nat): int
    requires nCompact < UINT
  {
    FromMpi(CompactBytes(nCompact))
  }

  /** The bytes beyond the third, as a power of 256; a number that fits in three bytes is a multiple of one. */
  ghost function Unit(n: nat): nat {
    if |Mpi(n)| <= 3 then 1 else Pow(256, |Mpi(n)| - 3)
  }

  /** The first three bytes, as a number. */
  ghost function Head(n: nat): int {
    var p := Mpi(n);
    Value(256, if |p| <= 3 then p else p[..3])
  }

  /** A number is its head in units, and less than a unit besides. */
  lemma HeadAndUnit(n: nat)
    ensures Unit(n) >= 1 && 0 <= n - Head(n) * Unit(n) < Unit(n)
    ensures |Mpi(n)| <= 3 ==> n == Head(n)
  {
    hide Mpi;
    MpiValue(n);
    var p := Mpi(n);
    if |p| > 3 {
      SplitNumeral(256, p, 3);
      PowPositive(256, |p| - 3);
    }
  }

  lemma CompactParts(k: nat, a: int, b: int, c: int)
    requires k <= 255 && 0 <= a < 256 && 0 <= b < 256 && 0 <= c < 256
    ensures var n := k * 0x100_0000 + a * 0x1_0000 + b * 0x100 + c;
      0 <= n < UINT && n / 0x100_0000 == k && n / 0x1_0000 % 0x100 == a && n / 0x100 % 0x100 == b && n % 0x100 == c
  {
    var n := k * 0x100_0000 + a * 0x1_0000 + b * 0x100 + c;
    DivMod(k, 0x100_0000, a * 0x1_0000 + b * 0x100 + c);
    DivMod(k * 0x100 + a, 0x1_0000, b * 0x100 + c);
    DivMod(k, 0x100, a);
    DivMod(k * 0x1_0000 + a * 0x100 + b, 0x100, c);
    DivMod(k * 0x100 + a, 0x100, b);
    assert n / 0x1_0000 == k * 0x100 + a;
    assert n / 0x100 == k * 0x1_0000 + a * 0x100 + b;
  }

  /** The bytes written back are the first three of the MPI, followed by zeros. */
  lemma CompactKeepsThree(n: nat)
    requires |Mpi(n)| <= 255
    ensures 0 <= GetCompact(n) < 0x1_0000_0000
    ensures var p := Mpi(n);
      CompactBytes(GetCompact(n)) == if |p| <= 3 then p else p[..3] + Zeros(|p| - 3)
  {
    hide Mpi;
    MpiValue(n);
    var p := Mpi(n);
    CompactParts(|p|, ByteAt(p, 0), ByteAt(p, 1), ByteAt(p, 2));
  }

  /** Reading back what was written gives the head in units, all but the first three bytes being zeroed. */
  lemma CompactRoundTrip(n: nat)
    requires |Mpi(n)| <= 255
    ensures SetCompact(GetCompact(n)) == Head(n) * Unit(n)
  {
    hide Mpi, CompactBytes, GetCompact;
    MpiValue(n);
    CompactKeepsThree(n);
    var p := Mpi(n);
    if |p| > 3 {
      ValueConcat(256, p[..3], Zeros(|p| - 3));
      ValueZeros(256, |p| - 3);
    }
  }

  /** The error is below one unit, and below one part in 32768. */
  lemma CompactError(n: nat)
    requires |Mpi(n)| <= 255
    ensures 0 <= n - SetCompact(GetCompact(n)) < Unit(n)
    ensures |Mpi(n)| <= 3 ==> SetCompact(GetCompact(n)) == n
    ensures n > 0 ==> 0x8000 * (n - SetCompact(GetCompact(n))) < n
  {
    hide Mpi, SetCompact, GetCompact, Head, Value, Pow;
    CompactRoundTrip(n);
    HeadAndUnit(n);
    var k := |Mpi(n)|;
    if k > 3 {
      MpiValue(n);
      MpiSize(n);
      PowStep(256, k - 2);
    }
  }

  lemma HeadBounds(n: nat)
    ensures 0 <= Head(n) < 0x100_0000
    ensures var k := |Mpi(n)|;
      var s := Head(n) * (if k == 0 then 0 else if k == 1 then 0x1_0000 else if k == 2 then 0x100 else 1);
      0 <= s < 0x100_0000 && (k <= 255 ==> GetCompact(n) == k * 0x100_0000 + s)
  {
    hide Mpi;
    MpiValue(n);
    var p := Mpi(n);
    if |p| == 0 { }
    else if |p| == 1 { ThreeDigits(p[..1]); assert p[..1] == p; }
    else if |p| == 2 { ThreeDigits(p[..2]); assert p[..2] == p; }
    else { ThreeDigits(p[..3]); assert |p| == 3 ==> p[..3] == p; }
  }

  lemma ThreeDigits(s: seq<int>)
    requires 1 <= |s| <= 3 && IsDigits(256, s)
    ensures Value(256, s) == if |s| == 1 then s[0] else if |s| == 2 then s[0] * 256 + s[1]
      else s[0] * 65536 + s[1] * 256 + s[2]
  {
    OneDigit(256, s);
    if |s| >= 2 { assert s[..2][..1] == s[..1]; assert Value(256, s[..2]) == s[0] * 256 + s[1]; }
    assert s[..|s|] == s;
  }

  /** The compact form keeps the order of numbers. */
  lemma CompactMonotone(m: nat, n: nat)
    requires m <= n && |Mpi(n)| <= 255
    ensures GetCompact(m) <= GetCompact(n)
  {
    hide Mpi, GetCompact, Head, Unit, Value, Pow;
    SizeMonotone(m, n);
    HeadBounds(m);
    HeadBounds(n);
    if |Mpi(m)| == |Mpi(n)| { HeadMonotone(m, n); }
  }

  lemma SizeMonotone(m: nat, n: nat)
    requires m <= n
    ensures |Mpi(m)| <= |Mpi(n)|
  {
    hide Mpi, Value, Pow;
    MpiValue(m);
    MpiValue(n);
    if m > 0 {
      MpiSize(m);
      MpiSize(n);
      var j, k := |Mpi(m)|, |Mpi(n)|;
      if j > k { PowIncreasing(256, k - 1, j - 2); }
    }
  }

  lemma HeadMonotone(m: nat, n: nat)
    requires m <= n && |Mpi(m)| == |Mpi(n)|
    ensures Head(m) <= Head(n)
  {
    hide Mpi, Head;
    HeadAndUnit(m);
    HeadAndUnit(n);
    var u := Unit(n);
    assert Unit(m) == u;
    if Head(m) > Head(n) {
      ScaledMonotone(Head(n) + 1, Head(m), u);
      Distribute(Head(n), -1, u);
    }
  }

  lemma ScaledMonotone(a: int, b: int, u: nat)
    requires a <= b
    ensures a * u <= b * u
  {
  }

  /** Bytes that are the MPI of a number that is not negative: no sign bit, and no byte that could be spared. */
  ghost predicate Canonical(p: seq<int>) {
    IsDigits(256, p) && (p != [] ==> p[0] < 128 && (p[0] != 0 || (|p| >= 2 && p[1] >= 128)))
  }

  lemma MpiCanonical(n: nat)
    ensures Canonical(Mpi(n))
  {
    MpiValue(n);
    hide Expand;
    ExpandValue(256, n);
  }

  lemma CanonicalUnique(p: seq<int>)
    requires Canonical(p)
    ensures FromMpi(p) >= 0 && Mpi(FromMpi(p)) == p
  {
    hide Expand, Value;
    ValueNonNegative(256, p);
    FromMpiEmpty();
    if p != [] && p[0] == 0 {
      assert p == Zeros(1) + p[1..];
      LeadingZeros(256, 1, p[1..]);
      ValueExpand(256, p[1..]);
    } else {
      ValueExpand(256, p);
    }
  }

  lemma FromMpiEmpty()
    ensures Value(256, []) == 0
  {
  }

  /** A number read from compact form is written back unchanged. */
  lemma CompactIdempotent(n: nat)
    requires |Mpi(n)| <= 255
    ensures SetCompact(GetCompact(n)) >= 0 && GetCompact(SetCompact(GetCompact(n))) == GetCompact(n)
  {
    hide Mpi, CompactBytes, FromMpi;
    MpiCanonical(n);
    CompactKeepsThree(n);
    CanonicalUnique(CompactBytes(GetCompact(n)));
  }

  // ---------------------------------------------------------------- 64-bit integers

  const UINT64 := 0x1_0000_0000_0000_0000

  /** After i of the eight bytes of m: the high ones, the low ones, and n holding the low ones at its top. */
  ghost predicate Halves(m: nat, i: nat, n: int, high: nat, low: nat)
    requires i <= 8
  {
    m == high * Pow(256, 8 - i) + low && low < Pow(256, 8 - i) && n == low * Pow(256, i)
  }

  /** p is the MPI of v with the given sign. */
  ghost predicate Written(p: seq<int>, v: nat, fNegative: bool) {
    && IsDigits(256, p) && (p == [] <==> v == 0)
    && (p != [] ==> (p[0] >= 128 <==> fNegative))
    && Value(256, if p != [] && fNegative then p[0 := p[0] - 128] else p) == v
  }

  lemma HalvesStart(m: nat)
    requires m < UINT64
    ensures Halves(m, 0, m, 0, m)
  {
    EightBytes();
  }

  lemma EightBytes()
    ensures Pow(256, 8) == UINT64 && Pow(256, 7) == 0x100_0000_0000_0000
  {
    PowAdd(256, 4, 4);
    PowAdd(256, 4, 3);
    assert Pow(256, 4) == 0x1_0000_0000;
  }

  /** The next byte comes off the top. */
  lemma HalvesStep(m: nat, i: nat, n: nat, high: nat, low: nat) returns (rest: nat)
    requires i < 8 && Halves(m, i, n, high, low)
    ensures var c := n / 0x100_0000_0000_0000;
      0 <= c < 256 && Halves(m, i + 1, n * 256 % UINT64, high * 256 + c, rest)
  {
    hide Pow;
    EightBytes();
    var a, b := Pow(256, 7 - i), Pow(256, i);
    PowPositive(256, 7 - i);
    PowPositive(256, i);
    PowAdd(256, 7 - i, i);
    PowStep(256, 8 - i);
    PowStep(256, i + 1);
    Quotient(low, a, 256);
    var c := low / a;
    rest := low % a;
    TopByte(low, a, b, c, rest);
    Regroup3(high, c, a, rest);
  }

  lemma Quotient(low: nat, a: nat, b: nat)
    requires a >= 1 && low < b * a
    ensures low == low / a * a + low % a && 0 <= low % a < a && 0 <= low / a < b
  {
    if low / a >= b { ScaledMonotone(b, low / a, a); }
  }

  lemma TopByte(low: nat, a: nat, b: nat, c: nat, rest: nat)
    requires a >= 1 && b >= 1 && a * b == 0x100_0000_0000_0000 && low == c * a + rest && rest < a && c < 256
    ensures low * b / 0x100_0000_0000_0000 == c && low * b * 256 % UINT64 == rest * (256 * b)
  {
    var top := 0x100_0000_0000_0000;
    assert low * b == c * top + rest * b by {
      assert (c * a + rest) * b == c * a * b + rest * b;
      Associate(c, a, b);
    }
    ScaledMonotone(rest + 1, a, b);
    Distribute(rest, -1, b);
    assert 0 <= rest * b < top by { ScaledMonotone(0, rest, b); }
    DivMod(c, top, rest * b);
    DivMod(c, UINT64, rest * b * 256);
    assert low * b * 256 == c * UINT64 + rest * b * 256;
    assert rest * b * 256 == rest * (256 * b);
  }

  lemma Regroup3(high: int, c: int, a: int, rest: int)
    ensures high * (256 * a) + (c * a + rest) == (high * 256 + c) * a + rest
  {
    Associate(high, 256, a);
  }

  /** Another byte after the first. */
  lemma WrittenStep(p: seq<int>, v: nat, fNegative: bool, c: int)
    requires Written(p, v, fNegative) && 0 <= c < 256 && p != []
    ensures Written(p + [c], v * 256 + c, fNegative)
  {
    var q := if fNegative then p[0 := p[0] - 128] else p;
    var r := p + [c];
    ValueAppend(256, q, c);
    assert (if fNegative then r[0 := r[0] - 128] else r) == q + [c];
  }

  /** The first byte, with a sign byte before it where its own top bit is taken. */
  lemma WrittenFirst(c: int, fNegative: bool)
    requires 0 < c < 256
    ensures Written(FirstBytes(c, fNegative), c, fNegative)
  {
    var p := FirstBytes(c, fNegative);
    var q := if fNegative then p[0 := p[0] - 128] else p;
    ValueAppend(256, [], c);
    assert [] + [c] == [c];
    ValueAppend(256, [], 0);
    assert [] + [0] == [0];
    ValueAppend(256, [0], c);
    assert q == if c >= 128 then [0] + [c] else [c];
  }

  function FirstBytes(c: int, fNegative: bool): seq<int> {
    if c >= 128 then [if fNegative then 128 else 0, c] else if fNegative then [c + 128] else [c]
  }

  function Signed(m: nat, fNegative: bool): int {
    if fNegative then 0 - m else m
  }

  /** The bytes that setint64 and setuint64 write for the magnitude and sign of a 64-bit integer. */
  method WriteBytes(m: nat, fNegative: bool) returns (p: seq<int>)
    requires m < UINT64
    ensures FromMpi(p) == Signed(m, fNegative)
  {
    var n := m;
    var fLeadingZeroes := true;
    p := [];
    HalvesStart(m);
    ghost var high: nat, low: nat := 0, m;
    for i := 0 to 8
      invariant n >= 0 && Halves(m, i, n, high, low)
      invariant Written(p, high, fNegative) && fLeadingZeroes == (p == [])
    {
      hide Written, Halves;
      var c := n / 0x100_0000_0000_0000;
      ghost var rest := HalvesStep(m, i, n, high, low);
      NothingWritten(p, high, fNegative);
      n := n * 256 % UINT64;
      ghost var was := high;
      high := high * 256 + c;
      low := rest;
      if fLeadingZeroes {
        if c == 0 { continue; }
        if c >= 128 {
          p := p + [if fNegative then 0x80 else 0];
        } else if fNegative {
          c := c + 0x80;
        }
        fLeadingZeroes := false;
        p := p + [c];
        WrittenFirst(high, fNegative);
        assert p == FirstBytes(high, fNegative);
      } else {
        WrittenStep(p, was, fNegative, c);
        p := p + [c];
      }
    }
    HalvesEnd(m, n, high, low);
  }

  lemma NothingWritten(p: seq<int>, v: nat, fNegative: bool)
    requires Written(p, v, fNegative)
    ensures p == [] <==> v == 0
  {
  }

  lemma HalvesEnd(m: nat, n: int, high: nat, low: nat)
    requires Halves(m, 8, n, high, low)
    ensures high == m
  {
    assert Pow(256, 0) == 1;
  }

  /** Exact for every signed value, the least one included. */
  method SetInt64(sn: int) returns (bn: int)
    requires -0x8000_0000_0000_0000 <= sn < 0x8000_0000_0000_0000
    ensures bn == sn
  {
    var n, fNegative := sn, false;
    if sn < 0 {
      n := -(sn + 1);
      n := n + 1;
      fNegative := true;
    }
    var p := WriteBytes(n, fNegative);
    bn := FromMpi(p);
  }

  method SetUInt64(n: nat) returns (bn: int)
    requires n < UINT64
    ensures bn == n
  {
    var p := WriteBytes(n, false);
    bn := FromMpi(p);
  }

  /** The MPI without its sign bit is a numeral of the magnitude. */
  lemma MpiMagnitude(n: int)
    ensures var p := Mpi(n); var q := if p == [] then p else p[0 := p[0] % 128];
      IsDigits(256, q) && Value(256, q) == Abs(n)
  {
    MpiRoundTrip(n);
    var p := Mpi(n);
    ExpandValue(256, Abs(n));
    if p != [] {
      hide Expand, Value;
      var m := Expand(256, Abs(n));
      if m[0] >= 128 {
        LeadingZeros(256, 1, m);
        assert p[0 := p[0] % 128] == Zeros(1) + m;
      } else {
        assert p[0 := p[0] % 128] == m;
      }
    }
  }

  /** One more byte in front of a numeral. */
  lemma ValuePrepend(s: seq<int>, i: nat)
    requires i < |s|
    ensures Value(256, s[|s| - 1 - i..]) == s[|s| - 1 - i] * Pow(256, i) + Value(256, s[|s| - i..])
  {
    var j := |s| - 1 - i;
    assert s[j..] == [s[j]] + s[j + 1..];
    ValueConcat(256, [s[j]], s[j + 1..]);
    ValueAppend(256, [], s[j]);
    assert [] + [s[j]] == [s[j]];
  }

  /** The magnitude, cut to its low 64 bits. */
  method GetUInt64(bn: int) returns (n: nat)
    ensures n == Abs(bn) % UINT64
  {
    hide Mpi, Value, Pow;
    var vch := Mpi(bn);
    MpiMagnitude(bn);
    if vch != [] { vch := vch[0 := vch[0] % 128]; }
    var i, scale := 0, 1;
    n := 0;
    FirstPower();
    assert vch[|vch|..] == [];
    while i < 8 && i < |vch|
      invariant i <= 8 && i <= |vch| && scale == Pow(256, i) && scale >= 1
      invariant n == Value(256, vch[|vch| - i..])
    {
      ValuePrepend(vch, i);
      PowStep(256, i + 1);
      ScaledMonotone(0, vch[|vch| - 1 - i], scale);
      n := n + vch[|vch| - 1 - i] * scale;
      scale := scale * 256;
      i := i + 1;
    }
    LowBytes(vch, i, n);
  }

  lemma FirstPower()
    ensures Pow(256, 0) == 1 && Value(256, []) == 0
  {
  }

  lemma LowBytes(vch: seq<int>, i: nat, n: int)
    requires IsDigits(256, vch) && i <= |vch| && i <= 8 && (i == 8 || i == |vch|) && n == Value(256, vch[|vch| - i..])
    ensures Value(256, vch) >= 0 && n == Value(256, vch) % UINT64
  {
    hide Pow, Value;
    EightBytes();
    FirstPower();
    SplitNumeral(256, vch, |vch| - i);
    ValueNonNegative(256, vch);
    var head := Value(256, vch[..|vch| - i]);
    if i < 8 {
      assert vch[..|vch| - i] == [];
      PowIncreasing(256, i, 8);
      SmallRest(n);
    } else {
      DivMod(head, UINT64, n);
    }
  }

  lemma SmallRest(n: int)
    requires 0 <= n < UINT64
    ensures n % UINT64 == n
  {
  }

  /** What setuint64 stores, getuint64 returns. */
  method StoreUInt64(n: nat) returns (back: nat)
    requires n < UINT64
    ensures back == n
  {
    var bn := SetUInt64(n);
    back := GetUInt64(bn);
  }
}
