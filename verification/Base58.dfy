/** Base58 text for byte vectors, with and without a checksum (src/base58.h). */
module Base58 {

  import opened Digits
  import opened Bignum

  const pszBase58 := "123456789" + "ABCDEFGH" + "JKLMN" + "PQRSTUVWXYZ" + "abcdefghijk" + "mnopqrstuvwxyz"

  datatype Option<T> = None | Some(value: T)

  // ---------------------------------------------------------------- characters

  /** strchr: the first position at or after k that holds c, or -1. */
  function Find(c: char, k: nat): (i: int)
    requires k <= 58
    ensures -1 <= i < 58 && (i >= 0 ==> k <= i && pszBase58[i] == c)
    decreases 58 - k
  {
    if k == 58 then -1 else if pszBase58[k] == c then k else Find(c, k + 1)
  }

  function IndexOf(c: char): int {
    Find(c, 0)
  }

  ghost predicate Runs(s: string, first: char) {
    forall k :: 0 <= k < |s| ==> s[k] as int == first as int + k
  }

  lemma DigitRuns()
    ensures Runs("123456789", '1') && Runs("ABCDEFGH", 'A') && Runs("JKLMN", 'J')
  {
  }

  lemma LetterRuns()
    ensures Runs("PQRSTUVWXYZ", 'P') && Runs("abcdefghijk", 'a') && Runs("mnopqrstuvwxyz", 'm')
  {
  }

  function Code(i: nat): int {
    if i < 9 then '1' as int + i else if i < 17 then 'A' as int + i - 9 else if i < 22 then 'J' as int + i - 17
    else if i < 33 then 'P' as int + i - 22 else if i < 44 then 'a' as int + i - 33 else 'm' as int + i - 44
  }

  lemma AlphabetCode(i: nat)
    requires i < 58
    ensures pszBase58[i] as int == Code(i)
  {
    DigitRuns();
    LetterRuns();
    if i < 9 { assert pszBase58[i] == "123456789"[i]; }
    else if i < 17 { assert pszBase58[i] == "ABCDEFGH"[i - 9]; }
    else if i < 22 { assert pszBase58[i] == "JKLMN"[i - 17]; }
    else if i < 33 { assert pszBase58[i] == "PQRSTUVWXYZ"[i - 22]; }
    else if i < 44 { assert pszBase58[i] == "abcdefghijk"[i - 33]; }
    else { assert pszBase58[i] == "mnopqrstuvwxyz"[i - 44]; }
  }

  lemma AlphabetAscends(i: nat, j: nat)
    requires i < j < 58
    ensures pszBase58[i] < pszBase58[j]
  {
    AlphabetCode(i);
    AlphabetCode(j);
  }

  /** The digits and letters but 0, O, I and l, which look alike. */
  predicate Unmistakable(c: char) {
    ('0' <= c <= '9' || 'A' <= c <= 'Z' || 'a' <= c <= 'z') && c != '0' && c != 'O' && c != 'I' && c != 'l'
  }

  /** Together with AlphabetAscends: these characters, in ascending order. */
  lemma AlphabetExact(c: char)
    ensures InAlphabet(c) <==> Unmistakable(c)
  {
    hide Find, Unmistakable, Code;
    if InAlphabet(c) {
      AlphabetCode(IndexOf(c));
      CodeIs(IndexOf(c), c);
    }
    if Unmistakable(c) {
      var i := PlaceOf(c);
      AlphabetCode(i);
      FindsFirst(i, 0);
    }
  }

  lemma CodeIs(i: nat, c: char)
    requires i < 58 && c as int == Code(i)
    ensures Unmistakable(c)
  {
  }

  lemma PlaceOf(c: char) returns (i: nat)
    requires Unmistakable(c)
    ensures i < 58 && Code(i) == c as int
  {
    var n := c as int;
    i := if n <= 57 then n - 49 else if n <= 72 then n - 56 else if n <= 78 then n - 57
    else if n <= 90 then n - 58 else if n <= 107 then n - 64 else n - 65;
  }

  function CharOf(d: int): char
    requires 0 <= d < 58
  {
    pszBase58[d]
  }

  lemma {:induction false} FindsFirst(i: nat, k: nat)
    requires k <= i < 58
    ensures Find(pszBase58[i], k) == i
    decreases i - k
  {
    if k < i {
      AlphabetAscends(k, i);
      FindsFirst(i, k + 1);
    }
  }

  /** isspace in the C locale. */
  predicate IsSpace(c: char) {
    c == ' ' || '\t' <= c <= '\r'
  }

  predicate InAlphabet(c: char) {
    IndexOf(c) >= 0
  }

  /** The six characters of the C locale. */
  lemma SpacesExact(c: char)
    ensures IsSpace(c) <==> c as int in {32, 9, 10, 11, 12, 13}
  {
  }

  lemma SpaceApart(c: char)
    ensures InAlphabet(c) ==> !IsSpace(c) && c != '\0'
  {
    if InAlphabet(c) { AlphabetCode(IndexOf(c)); }
  }

  ghost predicate AllAlphabet(s: string) {
    forall i :: 0 <= i < |s| ==> InAlphabet(s[i])
  }

  ghost predicate AllSpace(s: string) {
    forall i :: 0 <= i < |s| ==> IsSpace(s[i])
  }

  function ToText(ds: seq<int>): (s: string)
    requires IsDigits(58, ds)
    ensures |s| == |ds| && forall i :: 0 <= i < |ds| ==> s[i] == CharOf(ds[i])
  {
    seq(|ds|, i requires 0 <= i < |ds| => CharOf(ds[i]))
  }

  function FromText(s: string): (ds: seq<int>)
    ensures |ds| == |s| && forall i :: 0 <= i < |s| ==> ds[i] == IndexOf(s[i])
  {
    seq(|s|, i requires 0 <= i < |s| => IndexOf(s[i]))
  }

  lemma TextRoundTrip(ds: seq<int>)
    requires IsDigits(58, ds)
    ensures AllAlphabet(ToText(ds)) && FromText(ToText(ds)) == ds
  {
    forall i | 0 <= i < |ds| ensures IndexOf(ToText(ds)[i]) == ds[i] { FindsFirst(ds[i], 0); }
  }

  lemma DigitsRoundTrip(s: string)
    requires AllAlphabet(s)
    ensures IsDigits(58, FromText(s)) && ToText(FromText(s)) == s
  {
    forall i | 0 <= i < |s| ensures 0 <= FromText(s)[i] < 58 && pszBase58[FromText(s)[i]] == s[i] {
      assert InAlphabet(s[i]);
    }
  }

  // ---------------------------------------------------------------- what encoding means

  /** The bytes as a number in base 58, with a character '1' for each leading zero byte. */
  ghost function Encoded(bytes: seq<int>): string
    requires IsDigits(256, bytes)
  {
    TranscodeParts(256, 58, bytes);
    ToText(Transcode(256, 58, bytes))
  }

  /** A C string ends at the first NUL, or where the string does. */
  function At(s: string, i: nat): char {
    if i < |s| then s[i] else '\0'
  }

  /** The end of the run of spaces from i on. */
  ghost function SkipSpaces(s: string, i: nat): (j: nat)
    requires i <= |s|
    ensures i <= j <= |s| && AllSpace(s[i..j]) && !IsSpace(At(s, j))
    decreases |s| - i
  {
    if IsSpace(At(s, i)) then
      var j := SkipSpaces(s, i + 1);
      assert s[i..j] == [s[i]] + s[i + 1..j];
      j
    else i
  }

  ghost function SkipAlphabet(s: string, i: nat): (j: nat)
    requires i <= |s|
    ensures i <= j <= |s| && AllAlphabet(s[i..j]) && !InAlphabet(At(s, j))
    decreases |s| - i
  {
    SpaceApart('\0');
    if InAlphabet(At(s, i)) then
      var j := SkipAlphabet(s, i + 1);
      assert s[i..j] == [s[i]] + s[i + 1..j];
      j
    else i
  }

  /** The characters of a text: those after leading spaces and up to the first outside the alphabet. */
  ghost function Body(s: string): (t: string)
    ensures AllAlphabet(t)
  {
    var i := SkipSpaces(s, 0);
    s[i..SkipAlphabet(s, i)]
  }

  /** Only spaces may follow. */
  ghost predicate Readable(s: string) {
    At(s, SkipSpaces(s, SkipAlphabet(s, SkipSpaces(s, 0)))) == '\0'
  }

  ghost function Decoded(s: string): Option<seq<int>> {
    if Readable(s) then
      DigitsRoundTrip(Body(s));
      Some(Transcode(58, 256, FromText(Body(s))))
    else None
  }

  // ---------------------------------------------------------------- the loops

  lemma ExpandOnce(n: nat)
    requires n > 0
    ensures 0 <= n / 58 && Expand(58, n) == Expand(58, n / 58) + [n % 58]
  {
    DivFacts(n, 58);
  }

  lemma EncodeStep(n: nat, bn: nat, ds: seq<int>)
    requires IsDigits(58, ds) && Expand(58, n) == Expand(58, bn) + Reverse(ds) && bn > 0
    ensures IsDigits(58, ds + [bn % 58]) && 0 <= bn / 58 < bn
    ensures Expand(58, n) == Expand(58, bn / 58) + Reverse(ds + [bn % 58])
  {
    DivFacts(bn, 58);
    var rem := bn % 58;
    ExpandOnce(bn);
    hide Expand;
    assert Reverse(ds + [rem]) == [rem] + Reverse(ds);
    assert Expand(58, bn / 58) + ([rem] + Reverse(ds)) == Expand(58, bn) + Reverse(ds);
  }

  lemma TextAppend(ds: seq<int>, d: int)
    requires IsDigits(58, ds) && 0 <= d < 58
    ensures IsDigits(58, ds + [d]) && ToText(ds + [d]) == ToText(ds) + [CharOf(d)]
  {
    hide CharOf;
  }

  lemma EncodeEnd(bytes: seq<int>, ds: seq<int>, z: nat)
    requires IsDigits(256, bytes) && z == ZeroCount(bytes) && Value(256, bytes) >= 0
    requires IsDigits(58, ds) && IsDigits(58, ds + Zeros(z)) && Expand(58, Value(256, bytes)) == Reverse(ds)
    ensures Reverse(ToText(ds + Zeros(z))) == Encoded(bytes)
  {
    hide CharOf, Expand, Value;
    assert Transcode(256, 58, bytes) == Zeros(z) + Reverse(ds);
    assert Reverse(ds + Zeros(z)) == Zeros(z) + Reverse(ds);
  }

  method EncodeBase58(bytes: seq<int>) returns (str: string)
    requires IsDigits(256, bytes)
    ensures str == Encoded(bytes)
  {
    hide Expand, Value, ToText, CharOf, Encoded, FromMpi, IsDigits;
    var vchTmp := Reverse(bytes) + [0];
    assert Reverse(vchTmp) == [0] + bytes;
    var bn := SetVch(vchTmp);
    PositiveVch(bytes);
    ghost var n := bn;
    ghost var ds: seq<int> := [];
    str := "";
    EncodeStarts(n);
    while bn > 0
      invariant bn >= 0 && IsDigits(58, ds) && str == ToText(ds)
      invariant Expand(58, n) == Expand(58, bn) + Reverse(ds)
    {
      var rem := bn % 58;
      EncodeStep(n, bn, ds);
      TextAppend(ds, rem);
      bn := bn / 58;
      str := str + [CharOf(rem)];
      ds := ds + [rem];
    }
    var p := 0;
    EncodeStarts(0);
    assert Expand(58, n) == Reverse(ds);
    assert ds + Zeros(0) == ds;
    while p < |bytes| && bytes[p] == 0
      invariant p <= ZeroCount(bytes)
      invariant IsDigits(58, ds + Zeros(p)) && str == ToText(ds + Zeros(p))
    {
      assert ds + Zeros(p + 1) == ds + Zeros(p) + [0];
      TextAppend(ds + Zeros(p), 0);
      str := str + [CharOf(0)];
      p := p + 1;
    }
    EncodeEnd(bytes, ds, p);
    str := Reverse(str);
  }

  lemma EncodeStarts(n: nat)
    ensures IsDigits(58, []) && ToText([]) == "" && Expand(58, 0) == []
    ensures Expand(58, n) == Expand(58, n) + Reverse([])
  {
  }

  /** The extra zero byte makes the number non-negative. */
  lemma PositiveVch(bytes: seq<int>)
    requires IsDigits(256, bytes)
    ensures FromMpi([0] + bytes) == Value(256, bytes) >= 0
  {
    LeadingZeros(256, 1, bytes);
    ValueNonNegative(256, bytes);
    assert Zeros(1) == [0];
  }

  lemma DecodeStep(s: string, i: nat, p: nat)
    requires i <= p < |s|
    ensures Value(58, FromText(s[i..p + 1])) == Value(58, FromText(s[i..p])) * 58 + IndexOf(s[p])
  {
    hide IndexOf;
    assert s[i..p + 1] == s[i..p] + [s[p]];
    assert FromText(s[i..p + 1]) == FromText(s[i..p]) + [IndexOf(s[p])];
    ValueAppend(58, FromText(s[i..p]), IndexOf(s[p]));
  }

  /** Walks over spaces. */
  method PastSpaces(psz: string, from: nat) returns (p: nat)
    requires from <= |psz|
    ensures p == SkipSpaces(psz, from)
  {
    hide IsSpace, AllSpace;
    EndsOfText();
    p := from;
    while IsSpace(At(psz, p))
      invariant p <= |psz| && SkipSpaces(psz, p) == SkipSpaces(psz, from)
      decreases |psz| - p
    {
      p := p + 1;
    }
  }

  /** Reads the characters of the alphabet as a number. */
  method ReadNumber(psz: string, start: nat) returns (p: nat, bn: int)
    requires start <= |psz|
    ensures p == SkipAlphabet(psz, start) && start <= p <= |psz| && bn == Value(58, FromText(psz[start..p]))
  {
    hide InAlphabet, IndexOf, AllAlphabet, Value;
    EndsOfText();
    bn, p := 0, start;
    ValueOfNothing(psz, start);
    while At(psz, p) != '\0'
      invariant start <= p <= |psz| && SkipAlphabet(psz, p) == SkipAlphabet(psz, start)
      invariant bn == Value(58, FromText(psz[start..p]))
      decreases |psz| - p
    {
      if !InAlphabet(At(psz, p)) { break; }
      DecodeStep(psz, start, p);
      bn := bn * 58 + IndexOf(psz[p]);
      p := p + 1;
    }
  }

  lemma ValueOfNothing(s: string, i: nat)
    requires i <= |s|
    ensures Value(58, FromText(s[i..i])) == 0
  {
    assert FromText(s[i..i]) == [];
  }

  /** Counts the characters '1' at the start. */
  method LeadingOnes(psz: string, start: nat, ghost end: nat) returns (n: nat)
    requires start <= end <= |psz| && end == SkipAlphabet(psz, start)
    ensures n == ZeroCount(FromText(psz[start..end]))
  {
    hide IndexOf, CharOf, AllAlphabet;
    ghost var digits := FromText(psz[start..end]);
    n := 0;
    OneIsZero();
    EndsOfText();
    while At(psz, start + n) == CharOf(0)
      invariant n <= ZeroCount(digits)
      decreases |psz| - n
    {
      assert start + n < end;
      assert digits[n] == 0;
      n := n + 1;
    }
  }

  lemma DecodedParts(s: string, i: nat, j: nat)
    requires i == SkipSpaces(s, 0) && j == SkipAlphabet(s, i) && At(s, SkipSpaces(s, j)) == '\0'
    ensures var ds := FromText(s[i..j]);
      Value(58, ds) >= 0 && Decoded(s) == Some(Zeros(ZeroCount(ds)) + Expand(256, Value(58, ds)))
  {
    hide FromText, Value, Expand, AllAlphabet;
    DigitsRoundTrip(Body(s));
    ValueNonNegative(58, FromText(Body(s)));
  }

  method DecodeBase58(psz: string) returns (ok: bool, vchRet: seq<int>)
    ensures ok == Decoded(psz).Some?
    ensures vchRet == if ok then Decoded(psz).value else []
  {
    hide Expand, Value, FromText, AllAlphabet, AllSpace, IsSpace, InAlphabet, GetVch;
    EndsOfText();
    var start := PastSpaces(psz, 0);
    var p, bn := ReadNumber(psz, start);
    ghost var end := p;
    if At(psz, p) != '\0' {
      p := PastSpaces(psz, p);
      if At(psz, p) != '\0' { return false, []; }
    }
    DecodedParts(psz, start, end);
    var vchTmp := GetVch(bn);
    TrimmedVch(bn);
    if |vchTmp| >= 2 && vchTmp[|vchTmp| - 1] == 0 && vchTmp[|vchTmp| - 2] >= 128 {
      vchTmp := vchTmp[..|vchTmp| - 1];
    }
    var nLeadingZeros := LeadingOnes(psz, start, end);
    return true, Zeros(nLeadingZeros) + Reverse(vchTmp);
  }

  lemma OneIsZero()
    ensures forall c :: IndexOf(c) == 0 <==> c == CharOf(0)
  {
  }

  /** Without the sign byte, getvch holds the digits of the number. */
  lemma TrimmedVch(n: nat)
    ensures var v := GetVch(n);
      var t := if |v| >= 2 && v[|v| - 1] == 0 && v[|v| - 2] >= 128 then v[..|v| - 1] else v;
      Reverse(t) == Expand(256, n)
  {
    var m := Expand(256, n);
    ExpandValue(256, n);
    hide Expand, Value;
    if m != [] && m[0] >= 128 {
      assert Mpi(n) == [0] + m;
    }
    assert Reverse(Reverse(m)) == m;
  }

  // ---------------------------------------------------------------- which texts are read

  /** A run of spaces, characters of the alphabet, and spaces again, up to the end. */
  ghost predicate Parts(s: string, i: nat, j: nat, k: nat) {
    && i <= j <= k <= |s| && AllSpace(s[..i]) && AllAlphabet(s[i..j]) && AllSpace(s[j..k])
    && At(s, k) == '\0'
  }

  lemma {:induction false} SpacesThrough(s: string, i: nat, j: nat)
    requires i <= j <= |s| && AllSpace(s[i..j])
    ensures SkipSpaces(s, i) == SkipSpaces(s, j)
    decreases j - i
  {
    hide IsSpace;
    if i < j {
      assert s[i..j][0] == s[i];
      assert s[i + 1..j] == s[i..j][1..];
      SpacesThrough(s, i + 1, j);
    }
  }

  lemma {:induction false} AlphabetThrough(s: string, i: nat, j: nat)
    requires i <= j <= |s| && AllAlphabet(s[i..j])
    ensures SkipAlphabet(s, i) == SkipAlphabet(s, j)
    decreases j - i
  {
    hide InAlphabet;
    if i < j {
      assert s[i..j][0] == s[i];
      assert s[i + 1..j] == s[i..j][1..];
      AlphabetThrough(s, i + 1, j);
    }
  }

  /** Exactly these texts are read, whatever their length and whatever follows a NUL. */
  lemma ReadableParts(s: string)
    ensures Readable(s) <==> exists i, j, k :: Parts(s, i, j, k)
  {
    hide InAlphabet, IsSpace, AllSpace, AllAlphabet;
    if Readable(s) {
      var i := SkipSpaces(s, 0);
      var j := SkipAlphabet(s, i);
      var k := SkipSpaces(s, j);
      assert s[0..i] == s[..i];
      assert Parts(s, i, j, k);
    }
    if exists i, j, k :: Parts(s, i, j, k) {
      var i, j, k :| Parts(s, i, j, k);
      PartsReadable(s, i, j, k);
    }
  }

  lemma PartsReadable(s: string, i: nat, j: nat, k: nat)
    requires Parts(s, i, j, k)
    ensures Readable(s)
  {
    hide InAlphabet, IsSpace;
    EndsOfText();
    assert s[0..i] == s[..i];
    SpacesThrough(s, 0, i);
    SpacesThrough(s, j, k);
    AlphabetThrough(s, i, j);
    if i < j {
      assert s[i..j][0] == s[i];
      SpaceApart(s[i]);
    }
    if j < k {
      assert s[j..k][0] == s[j];
      SpaceApart(s[j]);
    }
  }

  // ---------------------------------------------------------------- encoding and decoding are inverse

  lemma EndsOfText()
    ensures !IsSpace('\0') && !InAlphabet('\0')
  {
    SpaceApart('\0');
  }

  lemma ParsesWhole(s: string)
    requires AllAlphabet(s)
    ensures Readable(s) && Body(s) == s
  {
    hide InAlphabet, IsSpace;
    SpaceApart(At(s, 0));
    SpaceApart('\0');
    EndsOfText();
    assert forall j :: 0 <= j < |s| ==> InAlphabet(s[j]);
    assert SkipSpaces(s, 0) == 0 && SkipAlphabet(s, 0) == |s|;
  }

  /** Every byte vector is read back from its text, leading zero bytes included. */
  lemma DecodeEncoded(bytes: seq<int>)
    requires IsDigits(256, bytes)
    ensures AllAlphabet(Encoded(bytes)) && Decoded(Encoded(bytes)) == Some(bytes)
  {
    TranscodeInverse(256, 58, bytes);
    TextRoundTrip(Transcode(256, 58, bytes));
    ParsesWhole(Encoded(bytes));
  }

  /** Two of the examples in src/test/data/base58_encode_decode.json. */
  lemma Examples()
    ensures Encoded([0x61]) == "2g" && Encoded([0x62, 0x62, 0x62]) == "a3gV"
  {
    ValueOfFour(256, 0x61, 0, 0, 0);
    ValueOfFour(58, 1, 39, 0, 0);
    ValueOfFour(256, 0x62, 0x62, 0x62, 0);
    ValueOfFour(58, 33, 2, 39, 28);
    hide Value, Encoded;
    Example([0x61], [1, 39], "2g");
    Example([0x62, 0x62, 0x62], [33, 2, 39, 28], "a3gV");
  }

  lemma ValueOfFour(b: nat, w: int, x: int, y: int, z: int)
    ensures Value(b, [w]) == w && Value(b, [w, x]) == w * b + x && Value(b, [w, x, y]) == (w * b + x) * b + y
    ensures Value(b, [w, x, y, z]) == ((w * b + x) * b + y) * b + z
  {
    ValueAppend(b, [], w);
    ValueAppend(b, [w], x);
    ValueAppend(b, [w, x], y);
    ValueAppend(b, [w, x, y], z);
    assert [] + [w] == [w] && [w] + [x] == [w, x] && [w, x] + [y] == [w, x, y] && [w, x, y] + [z] == [w, x, y, z];
  }

  lemma Example(bytes: seq<int>, digits: seq<int>, text: string)
    requires IsDigits(256, bytes) && IsDigits(58, digits) && Value(256, bytes) == Value(58, digits)
    requires bytes != [] && bytes[0] != 0 && digits != [] && digits[0] != 0
    requires |text| == |digits| && forall i :: 0 <= i < |text| ==> text[i] as int == Code(digits[i])
    ensures Encoded(bytes) == text
  {
    hide Expand, Value, Code, CharOf;
    ValueExpand(58, digits);
    assert Transcode(256, 58, bytes) == digits;
    forall i | 0 <= i < |digits| ensures CharOf(digits[i]) == text[i] { CharCode(digits[i]); }
    assert ToText(digits) == text;
  }

  lemma CharCode(i: nat)
    requires i < 58
    ensures CharOf(i) as int == Code(i)
  {
    AlphabetCode(i);
  }

  /** Every text over the alphabet is the encoding of what it decodes to, and of nothing else. */
  lemma EncodeDecoded(s: string, bytes: seq<int>)
    requires AllAlphabet(s) && IsDigits(256, bytes)
    ensures Decoded(s).Some? && IsDigits(256, Decoded(s).value)
    ensures Encoded(bytes) == s <==> Decoded(s) == Some(bytes)
  {
    ParsesWhole(s);
    DigitsRoundTrip(s);
    TranscodeInverse(58, 256, FromText(s));
    DecodeEncoded(bytes);
  }

  /** 11 digits of base 58 hold 8 bytes, which 138 per cent allow for. */
  lemma EncodedLength(bytes: seq<int>)
    requires IsDigits(256, bytes)
    ensures |Encoded(bytes)| <= |bytes| * 138 / 100 + 1
  {
    hide Expand, Value, Pow, Encoded;
    var z := ZeroCount(bytes);
    EncodedParts(bytes);
    ZerosPart(256, bytes);
    ValueBounds(256, bytes[z..]);
    DigitCount(Value(256, bytes), |bytes| - z);
  }

  lemma DigitCount(n: nat, m: nat)
    requires n < Pow(256, m)
    ensures 8 * (|Expand(58, n)| - 1) < 11 * m || Expand(58, n) == []
  {
    hide Pow, Value;
    var e := Expand(58, n);
    if n > 0 {
      ExpandValue(58, n);
      ValueBounds(58, e);
      FewDigits(|e| - 1, m);
    }
  }

  lemma EncodedParts(bytes: seq<int>)
    requires IsDigits(256, bytes)
    ensures Value(256, bytes) >= 0 && |Encoded(bytes)| == ZeroCount(bytes) + |Expand(58, Value(256, bytes))|
  {
    ValueNonNegative(256, bytes);
  }

  lemma FewDigits(k: nat, m: nat)
    requires Pow(58, k) < Pow(256, m)
    ensures 8 * k < 11 * m
  {
    if 8 * k >= 11 * m {
      EightBytes();
      PowMonotone(Pow(256, 8), Pow(58, 11), m);
      PowMul(256, 8, m);
      PowMul(58, 11, m);
      PowIncreasing(58, 11 * m, 8 * k);
      PowMul(256, m, 8);
      PowMul(58, k, 8);
      assert 8 * m == m * 8;
      assert 8 * k == k * 8;
      PowStrict(Pow(58, k), Pow(256, m), 8);
      assert false;
    }
  }

  lemma EightBytes()
    ensures Pow(256, 8) <= Pow(58, 11)
  {
    PowMul(256, 4, 2);
    PowAdd(58, 6, 5);
    assert Pow(256, 4) == 0x1_0000_0000;
    assert Pow(58, 5) == 656356768;
    assert Pow(58, 6) == 58 * 656356768;
    assert Pow(0x1_0000_0000, 2) == 0x1_0000_0000 * 0x1_0000_0000;
  }

  lemma {:induction false} PowStrict(b: nat, c: nat, k: nat)
    requires b < c && k >= 1
    ensures Pow(b, k) < Pow(c, k)
  {
    if k > 1 {
      PowStrict(b, c, k - 1);
      ProductMonotone(b, b, Pow(b, k - 1), Pow(c, k - 1));
      ProductMonotone(b + 1, c, Pow(c, k - 1), Pow(c, k - 1));
    }
  }

  // ---------------------------------------------------------------- with a checksum

  type FourBytes = s: seq<int> | |s| == 4 && forall i :: 0 <= i < 4 ==> 0 <= s[i] < 256 witness [0, 0, 0, 0]

  /** The first four bytes of the hash of a byte vector. */
  type Checksum = seq<int> -> FourBytes

  ghost function EncodedCheck(hash: Checksum, bytes: seq<int>): string
    requires IsDigits(256, bytes)
  {
    Encoded(bytes + hash(bytes))
  }

  ghost function DecodedCheck(hash: Checksum, s: string): Option<seq<int>> {
    match Decoded(s)
    case None => None
    case Some(v) =>
      if |v| >= 4 && hash(v[..|v| - 4]) == v[|v| - 4..] then Some(v[..|v| - 4]) else None
  }

  method EncodeBase58Check(hash: Checksum, vchIn: seq<int>) returns (str: string)
    requires IsDigits(256, vchIn)
    ensures str == EncodedCheck(hash, vchIn)
  {
    var vch := vchIn + hash(vchIn);
    str := EncodeBase58(vch);
  }

  method DecodeBase58Check(hash: Checksum, psz: string) returns (ok: bool, vchRet: seq<int>)
    ensures ok == DecodedCheck(hash, psz).Some?
    ensures vchRet == if ok then DecodedCheck(hash, psz).value else []
  {
    ok, vchRet := DecodeBase58(psz);
    if !ok { return; }
    if |vchRet| < 4 { return false, []; }
    if hash(vchRet[..|vchRet| - 4]) != vchRet[|vchRet| - 4..] { return false, []; }
    vchRet := vchRet[..|vchRet| - 4];
  }

  /** The only text over the alphabet that decodes to given bytes is their encoding. */
  lemma CheckInverse(hash: Checksum, s: string, bytes: seq<int>)
    requires AllAlphabet(s) && IsDigits(256, bytes)
    ensures EncodedCheck(hash, bytes) == s <==> DecodedCheck(hash, s) == Some(bytes)
  {
    var all := bytes + hash(bytes);
    EncodeDecoded(s, all);
    assert all[..|all| - 4] == bytes && all[|all| - 4..] == hash(bytes);
    if DecodedCheck(hash, s) == Some(bytes) {
      var v := Decoded(s).value;
      assert v == v[..|v| - 4] + v[|v| - 4..];
    }
  }

  lemma CheckRoundTrip(hash: Checksum, bytes: seq<int>)
    requires IsDigits(256, bytes)
    ensures AllAlphabet(EncodedCheck(hash, bytes)) && DecodedCheck(hash, EncodedCheck(hash, bytes)) == Some(bytes)
  {
    DecodeEncoded(bytes + hash(bytes));
    CheckInverse(hash, EncodedCheck(hash, bytes), bytes);
  }

  class CBase58Data {
    const hash: Checksum
    var nVersion: int
    var vchData: seq<int>

    ghost predicate Valid()
      reads this
    {
      0 <= nVersion < 256 && IsDigits(256, vchData)
    }

    constructor (hash: Checksum)
      ensures this.hash == hash && nVersion == 0 && vchData == []
    {
      this.hash, nVersion, vchData := hash, 0, [];
    }

    method SetString(psz: string) returns (ok: bool)
      modifies this`nVersion, this`vchData
      ensures ok == (DecodedCheck(hash, psz).Some? && DecodedCheck(hash, psz).value != [])
      ensures ok ==> [nVersion] + vchData == DecodedCheck(hash, psz).value
      ensures !ok ==> nVersion == 0 && vchData == []
    {
      var decoded, vchTemp := DecodeBase58Check(hash, psz);
      if vchTemp == [] {
        vchData, nVersion := [], 0;
        return false;
      }
      nVersion := vchTemp[0];
      vchData := vchTemp[1..];
      return true;
    }

    method ToString() returns (str: string)
      requires Valid()
      ensures str == EncodedCheck(hash, [nVersion] + vchData)
    {
      str := EncodeBase58Check(hash, [nVersion] + vchData);
    }
  }

  /** Any object that takes the text of another becomes equal to it. */
  method SetStringToString(from: CBase58Data, to: CBase58Data)
    requires from.Valid() && from != to && from.hash == to.hash
    modifies to
    ensures to.nVersion == from.nVersion && to.vchData == from.vchData
  {
    var str := from.ToString();
    CheckRoundTrip(from.hash, [from.nVersion] + from.vchData);
    var ok := to.SetString(str);
    assert [to.nVersion] + to.vchData == [from.nVersion] + from.vchData;
    assert to.vchData == ([to.nVersion] + to.vchData)[1..];
    assert ([to.nVersion] + to.vchData)[0] == to.nVersion;
  }
}
