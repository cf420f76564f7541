/** HMAC-SHA256 and PBKDF2 over an uninterpreted SHA-256 (src/pbkdf2.cpp). */
module Pbkdf2 {

  import opened Digits

  type Bytes = seq<bv8>

  type Digest = s: Bytes | |s| == 32 witness seq(32, _ => 0)

  type Sha256 = Bytes -> Digest

  function XorByte(a: bv8, b: bv8): bv8 {
    a ^ b
  }

  function Xor(a: Bytes, b: Bytes): (r: Bytes)
    requires |a| == |b|
    ensures |r| == |a| && forall k :: 0 <= k < |a| ==> r[k] == XorByte(a[k], b[k])
  {
    seq(|a|, k requires 0 <= k < |a| => XorByte(a[k], b[k]))
  }

  function Repeated(b: bv8, n: nat): (s: Bytes)
    ensures |s| == n && forall k :: 0 <= k < n ==> s[k] == b
  {
    seq(n, _ => b)
  }

  // ---------------------------------------------------------------- the standards

  /** Section 2 of RFC 2104: the key, hashed if it is longer than a block, filled up with zeros. */
  function BlockKey(sha: Sha256, key: Bytes): (k: Bytes)
    ensures |k| == 64
  {
    var short := if |key| > 64 then sha(key) else key;
    short + Repeated(0, 64 - |short|)
  }

  /** H(K XOR opad, H(K XOR ipad, text)) */
  function Hmac(sha: Sha256, key: Bytes, text: Bytes): Digest {
    var k := BlockKey(sha, key);
    sha(Xor(k, Repeated(0x5c, 64)) + sha(Xor(k, Repeated(0x36, 64)) + text))
  }

  /** The four octets of a number, most significant first. */
  function Octets(x: nat): (q: seq<int>)
    requires x < 0x1_0000_0000
    ensures |q| == 4 && forall i :: 0 <= i < 4 ==> 0 <= q[i] < 256
  {
    [x / 0x100_0000, x / 0x1_0000 % 256, x / 0x100 % 256, x % 256]
  }

  function AsByte(n: int): bv8
    requires 0 <= n < 256
  {
    n as bv8
  }

  function Int32(x: nat): (s: Bytes)
    requires x < 0x1_0000_0000
    ensures |s| == 4
  {
    var q := Octets(x);
    seq(4, i requires 0 <= i < 4 => AsByte(q[i]))
  }

  /** The number that four bytes spell, most significant first. */
  function Number(s: Bytes): int
    requires |s| == 4
  {
    ((s[0] as int * 256 + s[1] as int) * 256 + s[2] as int) * 256 + s[3] as int
  }

  /** Every four bytes are the encoding of their number. */
  lemma Int32Inverse(s: Bytes)
    requires |s| == 4
    ensures 0 <= Number(s) < 0x1_0000_0000 && Int32(Number(s)) == s
  {
    OctetsOf(s);
    hide Octets, Number, AsByte;
    forall i | 0 <= i < 4 ensures Int32(Number(s))[i] == s[i] { ByteBack(s[i]); }
  }

  lemma OctetsOf(s: Bytes)
    requires |s| == 4
    ensures 0 <= Number(s) < 0x1_0000_0000
    ensures Octets(Number(s)) == [s[0] as int, s[1] as int, s[2] as int, s[3] as int]
  {
    hide Octets, AsByte;
    ByteBack(s[0]);
    ByteBack(s[1]);
    ByteBack(s[2]);
    ByteBack(s[3]);
    SplitOctets(s[0] as int, s[1] as int, s[2] as int, s[3] as int);
  }

  lemma SplitOctets(a: int, b: int, c: int, d: int)
    requires 0 <= a < 256 && 0 <= b < 256 && 0 <= c < 256 && 0 <= d < 256
    ensures var n := ((a * 256 + b) * 256 + c) * 256 + d; 0 <= n < 0x1_0000_0000 && Octets(n) == [a, b, c, d]
  {
    SplitNumber(a, b, c, d);
  }

  lemma SplitNumber(a: int, b: int, c: int, d: int)
    requires 0 <= a < 256 && 0 <= b < 256 && 0 <= c < 256 && 0 <= d < 256
    ensures var n := ((a * 256 + b) * 256 + c) * 256 + d;
      0 <= n < 0x1_0000_0000 && n / 0x100_0000 == a && n / 0x1_0000 % 256 == b && n / 0x100 % 256 == c && n % 256 == d
  {
    var n := ((a * 256 + b) * 256 + c) * 256 + d;
    DivMod(a, 0x100_0000, (b * 256 + c) * 256 + d);
    DivMod(a * 256 + b, 0x1_0000, c * 256 + d);
    DivMod((a * 256 + b) * 256 + c, 0x100, d);
    DivMod(a, 0x100, b);
    DivMod(a * 256 + b, 0x100, c);
    assert n / 0x1_0000 == a * 256 + b;
    assert n / 0x100 == (a * 256 + b) * 256 + c;
  }

  lemma ByteBack(b: bv8)
    ensures 0 <= b as int < 256 && AsByte(b as int) == b
  {
  }

  /** Section 5.2 of RFC 8018: U_j for block i. */
  function U(sha: Sha256, p: Bytes, s: Bytes, i: nat, j: nat): Digest
    requires 1 <= i < 0x1_0000_0000 && j >= 1
  {
    if j == 1 then Hmac(sha, p, s + Int32(i)) else Hmac(sha, p, U(sha, p, s, i, j - 1))
  }

  /** U_1 XOR ... XOR U_c */
  function F(sha: Sha256, p: Bytes, s: Bytes, c: nat, i: nat): Digest
    requires 1 <= i < 0x1_0000_0000 && c >= 1
    decreases c
  {
    if c == 1 then U(sha, p, s, i, 1) else Xor(F(sha, p, s, c - 1, i), U(sha, p, s, i, c))
  }

  /** T_1 || ... || T_l */
  function Blocks(sha: Sha256, p: Bytes, s: Bytes, c: nat, l: nat): (t: Bytes)
    requires l < 0x1_0000_0000 && c >= 1
    ensures |t| == 32 * l
  {
    if l == 0 then [] else Blocks(sha, p, s, c, l - 1) + F(sha, p, s, c, l)
  }

  function Pbkdf2(sha: Sha256, p: Bytes, s: Bytes, c: nat, dkLen: nat): (dk: Bytes)
    requires c >= 1 && dkLen <= 32 * 0xFFFF_FFFF
    ensures |dk| == dkLen
  {
    Blocks(sha, p, s, c, (dkLen + 31) / 32)[..dkLen]
  }

  /** HMAC byte by byte: a key of at most 64 bytes is used as it is and filled up with zeros, a longer one is hashed
      first; the inner pad is 0x36 and the outer one 0x5c. */
  lemma HmacBytes(sha: Sha256, key: Bytes, text: Bytes, inner: Bytes, outer: Bytes)
    requires |inner| == 64 && |outer| == 64
    requires var short := if |key| <= 64 then key else sha(key);
      forall i :: 0 <= i < 64 ==>
        inner[i] == (if i < |short| then short[i] ^ 0x36 else 0x36) &&
          outer[i] == if i < |short| then short[i] ^ 0x5c else 0x5c
    ensures Hmac(sha, key, text) == sha(outer + sha(inner + text))
  {
    var k := BlockKey(sha, key);
    forall i | 0 <= i < 64
      ensures inner[i] == Xor(k, Repeated(0x36, 64))[i] && outer[i] == Xor(k, Repeated(0x5c, 64))[i]
    {
      XorZero(0x36);
      XorZero(0x5c);
    }
    assert inner == Xor(k, Repeated(0x36, 64)) && outer == Xor(k, Repeated(0x5c, 64));
  }

  lemma XorZero(b: bv8)
    ensures 0 ^ b == b
  {
  }

  /** The blocks one by one: block i begins at 32 (i - 1), and with one, two or three iterations it is the XOR of as
      many HMACs in a chain that starts from the salt and the number of the block. */
  lemma BlocksOneByOne(sha: Sha256, p: Bytes, s: Bytes, i: nat)
    requires 1 <= i < 0x1_0000_0000
    ensures var u1 := Hmac(sha, p, s + Int32(i));
      var u2 := Hmac(sha, p, u1);
      && F(sha, p, s, 1, i) == u1 && F(sha, p, s, 2, i) == Xor(u1, u2)
      && F(sha, p, s, 3, i) == Xor(Xor(u1, u2), Hmac(sha, p, u2))
  {
    hide Hmac, Xor, Int32;
    assert U(sha, p, s, i, 2) == Hmac(sha, p, U(sha, p, s, i, 1));
    assert U(sha, p, s, i, 3) == Hmac(sha, p, U(sha, p, s, i, 2));
  }

  lemma {:induction false} BlockAt(sha: Sha256, p: Bytes, s: Bytes, c: nat, l: nat, i: nat)
    requires 1 <= i <= l < 0x1_0000_0000 && c >= 1
    ensures Blocks(sha, p, s, c, l)[32 * (i - 1)..32 * i] == F(sha, p, s, c, i)
  {
    hide F;
    if i < l { BlockAt(sha, p, s, c, l - 1, i); }
  }

  // ---------------------------------------------------------------- HMAC in steps

  /** XORs a key into the front of a pad. */
  method XorInto(pad: array<bv8>, key: Bytes)
    requires |key| <= pad.Length
    modifies pad
    ensures pad[..] == Xor(old(pad[..])[..|key|], key) + old(pad[..])[|key|..]
  {
    for i := 0 to |key|
      invariant forall k :: 0 <= k < i ==> pad[k] == XorByte(old(pad[k]), key[k])
      invariant forall k :: i <= k < pad.Length ==> pad[k] == old(pad[k])
    {
      pad[i] := XorByte(pad[i], key[i]);
    }
  }

  /** Two hash contexts, each the bytes fed into it so far. */
  class HmacContext {
    const sha: Sha256
    var ictx: Bytes
    var octx: Bytes

    constructor (sha: Sha256)
      ensures this.sha == sha
    {
      this.sha, ictx, octx := sha, [], [];
    }

    /** The context of HMAC with this key after this text. */
    ghost predicate Holds(key: Bytes, text: Bytes)
      reads this
    {
      && ictx == Xor(BlockKey(sha, key), Repeated(0x36, 64)) + text
      && octx == Xor(BlockKey(sha, key), Repeated(0x5c, 64))
    }

    method Init(key: Bytes)
      modifies this`ictx, this`octx
      ensures Holds(key, [])
    {
      var k := key;
      if |key| > 64 { k := sha(key); }
      var pad := new bv8[64](_ => 0x36);
      XorInto(pad, k);
      PadIsXor(sha, key, k, 0x36, pad[..]);
      ictx := pad[..];
      pad := new bv8[64](_ => 0x5c);
      XorInto(pad, k);
      PadIsXor(sha, key, k, 0x5c, pad[..]);
      octx := pad[..];
    }

    method Update(data: Bytes)
      modifies this`ictx
      ensures ictx == old(ictx) + data && forall key, text :: old(Holds(key, text)) ==> Holds(key, text + data)
    {
      ictx := ictx + data;
      forall key, text | old(Holds(key, text)) ensures Holds(key, text + data) {
        assert Xor(BlockKey(sha, key), Repeated(0x36, 64)) + text + data
            == Xor(BlockKey(sha, key), Repeated(0x36, 64)) + (text + data);
      }
    }

    method Final(digest: array<bv8>)
      requires digest.Length == 32
      modifies this`octx, digest
      ensures forall key, text :: old(Holds(key, text)) ==> digest[..] == Hmac(sha, key, text)
    {
      var ihash := sha(ictx);
      octx := octx + ihash;
      var h := sha(octx);
      forall k | 0 <= k < 32 { digest[k] := h[k]; }
      assert digest[..] == h;
    }

    method CopyFrom(other: HmacContext)
      requires other != this && sha == other.sha
      modifies this`ictx, this`octx
      ensures ictx == other.ictx && octx == other.octx
    {
      ictx, octx := other.ictx, other.octx;
    }
  }

  /** XORing the key into a constant block is XORing the filled-up key with it. */
  lemma PadIsXor(sha: Sha256, key: Bytes, k: Bytes, c: bv8, pad: Bytes)
    requires k == (if |key| > 64 then sha(key) else key)
    requires pad == Xor(Repeated(c, 64)[..|k|], k) + Repeated(c, 64)[|k|..]
    ensures pad == Xor(BlockKey(sha, key), Repeated(c, 64)) && pad + [] == pad
  {
  }

  // ---------------------------------------------------------------- PBKDF2 in steps

  method PBKDF2_SHA256(sha: Sha256, passwd: Bytes, salt: Bytes, c: nat, buf: array<bv8>, dkLen: nat)
    requires dkLen <= 32 * 0xFFFF_FFFF && dkLen <= buf.Length
    modifies buf
    ensures buf[..dkLen] == Pbkdf2(sha, passwd, salt, AtLeastOne(c), dkLen)
    ensures buf[dkLen..] == old(buf[dkLen..])
  {
    hide Hmac, BlockKey, F, U, Blocks;
    var psctx := new HmacContext(sha);
    psctx.Init(passwd);
    psctx.Update(salt);
    assert psctx.Holds(passwd, salt) by { assert [] + salt == salt; }
    var t := new bv8[32];
    var i := 0;
    ghost var c1 := AtLeastOne(c);
    BlocksStart(sha, passwd, salt, c1);
    while i * 32 < dkLen
      invariant i <= (dkLen + 31) / 32 && psctx.Holds(passwd, salt)
      invariant fresh(psctx) && fresh(t) && t.Length == 32
      invariant var n := Least(i * 32, dkLen); buf[..n] == Blocks(sha, passwd, salt, c1, i)[..n]
      invariant forall k :: dkLen <= k < buf.Length ==> buf[k] == old(buf[k])
    {
      hide HmacContext.Holds;
      Block(psctx, passwd, salt, i + 1, c, t);
      var clen := dkLen - i * 32;
      if clen > 32 { clen := 32; }
      CopyBlock(buf, i * 32, t, clen);
      BlocksGrow(sha, passwd, salt, c1, i, clen, buf[..i * 32], t[..]);
      assert buf[..i * 32 + clen] == buf[..i * 32] + t[..][..clen];
      i := i + 1;
    }
  }

  function AtLeastOne(c: nat): nat {
    if c < 1 then 1 else c
  }

  function Least(a: nat, b: nat): nat {
    if b < a then b else a
  }

  lemma BlocksStart(sha: Sha256, p: Bytes, s: Bytes, c: nat)
    requires c >= 1
    ensures Blocks(sha, p, s, c, 0) == []
  {
  }

  lemma BlocksGrow(sha: Sha256, p: Bytes, s: Bytes, c: nat, i: nat, clen: nat, done: Bytes, t: Bytes)
    requires i + 1 < 0x1_0000_0000 && c >= 1 && clen <= 32
    requires done == Blocks(sha, p, s, c, i) && t == F(sha, p, s, c, i + 1)
    ensures done + t[..clen] == Blocks(sha, p, s, c, i + 1)[..i * 32 + clen]
  {
    hide F;
  }

  /** memcpy of a block into the output. */
  method CopyBlock(buf: array<bv8>, at: nat, t: array<bv8>, clen: nat)
    requires t.Length == 32 && clen <= 32 && at + clen <= buf.Length && buf != t
    modifies buf
    ensures buf[..at] == old(buf[..at]) && buf[at..at + clen] == t[..clen]
    ensures forall k :: at + clen <= k < buf.Length ==> buf[k] == old(buf[k])
  {
    forall k | 0 <= k < clen { buf[at + k] := t[k]; }
  }

  /** U_j from U_(j-1), in place. */
  method NextU(hctx: HmacContext, passwd: Bytes, u: array<bv8>)
    requires u.Length == 32
    modifies hctx, u
    ensures u[..] == Hmac(hctx.sha, passwd, old(u[..]))
  {
    hide Hmac, HmacContext.Holds;
    ghost var was := u[..];
    hctx.Init(passwd);
    hctx.Update(u[..]);
    assert [] + was == was;
    hctx.Final(u);
  }

  method XorBlock(t: array<bv8>, u: array<bv8>)
    requires t.Length == 32 && u.Length == 32 && t != u
    modifies t
    ensures t[..] == Xor(old(t[..]), u[..])
  {
    for k := 0 to 32
      invariant forall m :: 0 <= m < k ==> t[m] == XorByte(old(t[m]), u[m])
      invariant forall m :: k <= m < 32 ==> t[m] == old(t[m])
    {
      hide XorByte;
      t[k] := XorByte(t[k], u[k]);
    }
  }

  /** U_1, from a copy of the context that already holds the salt. */
  method FirstU(psctx: HmacContext, hctx: HmacContext, passwd: Bytes, salt: Bytes, i: nat, u: array<bv8>)
    requires 1 <= i < 0x1_0000_0000 && u.Length == 32 && psctx.Holds(passwd, salt)
    requires psctx != hctx && psctx.sha == hctx.sha
    modifies hctx, u
    ensures u[..] == Hmac(hctx.sha, passwd, salt + Int32(i))
  {
    hide Hmac, BlockKey, Xor, Int32;
    var ivec := Int32(i);
    hctx.CopyFrom(psctx);
    assert hctx.Holds(passwd, salt);
    hctx.Update(ivec);
    hctx.Final(u);
  }

  /** One block of the output. */
  method Block(psctx: HmacContext, passwd: Bytes, salt: Bytes, i: nat, c: nat, t: array<bv8>)
    requires 1 <= i < 0x1_0000_0000 && t.Length == 32 && psctx.Holds(passwd, salt)
    modifies t
    ensures t[..] == F(psctx.sha, passwd, salt, AtLeastOne(c), i)
  {
    hide Hmac, BlockKey, Xor, Int32, HmacContext.Holds;
    var sha := psctx.sha;
    var hctx := new HmacContext(sha);
    var u := new bv8[32];
    FirstU(psctx, hctx, passwd, salt, i, u);
    forall k | 0 <= k < 32 { t[k] := u[k]; }
    assert t[..] == u[..];
    var j := 2;
    while j <= c
      invariant 2 <= j && (j <= c + 1 || j == 2)
      invariant fresh(hctx) && hctx.sha == sha && fresh(u) && u.Length == 32
      invariant u[..] == U(sha, passwd, salt, i, j - 1) && t[..] == F(sha, passwd, salt, j - 1, i)
    {
      NextU(hctx, passwd, u);
      XorBlock(t, u);
      j := j + 1;
    }
  }
}
