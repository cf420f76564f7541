/** The Bloom filter of a lightweight client (src/bloom.cpp). */
module Bloom {

  type Bytes = seq<bv8>

  const BLOOM_UPDATE_ALL := 1
  const BLOOM_UPDATE_P2PUBKEY_ONLY := 2

  // ---------------------------------------------------------------- single bits

  function Mask(k: nat): bv8
    requires k < 8
  {
    if k == 0 then 0x01 else if k == 1 then 0x02 else if k == 2 then 0x04 else if k == 3 then 0x08
    else if k == 4 then 0x10 else if k == 5 then 0x20 else if k == 6 then 0x40 else 0x80
  }

  /** Bits are numbered from the least significant one. */
  lemma MaskIsShift(k: nat)
    requires k < 8
    ensures Mask(k) == (1 as bv8) << (k as bv4)
  {
  }

  /** Bit n of the array. */
  predicate Bit(vData: Bytes, n: nat)
    requires n < 8 * |vData|
  {
    vData[n / 8] & Mask(n % 8) != 0
  }

  lemma OrKeeps(x: bv8, m: bv8, k: nat)
    requires k < 8
    ensures x & Mask(k) != 0 ==> (x | m) & Mask(k) != 0
    ensures (x | Mask(k)) & Mask(k) != 0
    ensures 0xff & Mask(k) != 0 && 0 & Mask(k) == 0
    ensures x == 0xff ==> x | m == 0xff
  {
  }

  // ---------------------------------------------------------------- the plain filter

  /** The bit positions of a key: one for each hash function. */
  datatype Hashes = Hashes(count: nat, murmur: (nat, Bytes) -> nat)

  function Index(h: Hashes, size: nat, i: nat, key: Bytes): (n: nat)
    requires size > 0
    ensures n < 8 * size
  {
    h.murmur(i, key) % (size * 8)
  }

  /** What contains means without the shortcuts: all bits of the key are set. */
  ghost predicate Holds(h: Hashes, vData: Bytes, key: Bytes)
    requires vData != []
  {
    forall i :: 0 <= i < h.count ==> HasBit(h, vData, i, key)
  }

  predicate HasBit(h: Hashes, vData: Bytes, i: nat, key: Bytes)
    requires vData != []
  {
    Bit(vData, Index(h, |vData|, i, key))
  }

  /** b has all bits that a has. */
  ghost predicate Covers(a: Bytes, b: Bytes) {
    |a| == |b| && forall n: nat :: n < 8 * |a| && Bit(a, n) ==> Bit(b, n)
  }

  lemma CoversKeeps(h: Hashes, a: Bytes, b: Bytes, key: Bytes)
    requires a != [] && Covers(a, b) && Holds(h, a, key)
    ensures Holds(h, b, key)
  {
    forall i | 0 <= i < h.count ensures HasBit(h, b, i, key) {
      assert HasBit(h, a, i, key);
    }
  }

  function WithBit(vData: Bytes, n: nat): (r: Bytes)
    requires n < 8 * |vData|
    ensures |r| == |vData|
  {
    vData[n / 8 := vData[n / 8] | Mask(n % 8)]
  }

  lemma WithBitCovers(vData: Bytes, n: nat)
    requires n < 8 * |vData|
    ensures Covers(vData, WithBit(vData, n)) && Bit(WithBit(vData, n), n)
  {
    hide Mask;
    var w := WithBit(vData, n);
    OrKeeps(vData[n / 8], Mask(n % 8), n % 8);
    forall m: nat | m < 8 * |vData| && Bit(vData, m) ensures Bit(w, m) {
      OrKeeps(vData[m / 8], Mask(n % 8), m % 8);
    }
  }

  /** Setting a bit changes no other one. */
  lemma WithBitExact(vData: Bytes, n: nat, m: nat)
    requires n < 8 * |vData| && m < 8 * |vData|
    ensures Bit(WithBit(vData, n), m) <==> Bit(vData, m) || m == n
  {
    hide Mask, WithBit;
    WithBitByte(vData, n, m);
    MasksApart(vData[n / 8], n % 8, m % 8);
    Place(m, n);
  }

  lemma WithBitByte(vData: Bytes, n: nat, m: nat)
    requires n < 8 * |vData| && m < 8 * |vData|
    ensures WithBit(vData, n)[m / 8] == if m / 8 == n / 8 then vData[n / 8] | Mask(n % 8) else vData[m / 8]
  {
    hide Mask, Bit;
  }

  lemma Place(m: nat, n: nat)
    ensures m / 8 == n / 8 ==> (m % 8 == n % 8 <==> m == n)
  {
  }

  lemma MasksApart(x: bv8, k: nat, j: nat)
    requires k < 8 && j < 8
    ensures (x | Mask(k)) & Mask(j) != 0 <==> x & Mask(j) != 0 || j == k
  {
  }

  /** The array with the bits of a key for the first n hash functions. */
  function WithBits(h: Hashes, vData: Bytes, key: Bytes, n: nat): (r: Bytes)
    requires vData != []
    ensures |r| == |vData|
  {
    if n == 0 then vData
    else
      var u := WithBits(h, vData, key, n - 1);
      WithBit(u, Index(h, |u|, n - 1, key))
  }

  function WithKey(h: Hashes, vData: Bytes, key: Bytes): (r: Bytes)
    requires vData != []
    ensures |r| == |vData|
  {
    WithBits(h, vData, key, h.count)
  }

  lemma {:induction false} WithBitsHold(h: Hashes, vData: Bytes, key: Bytes, n: nat)
    requires vData != []
    ensures Covers(vData, WithBits(h, vData, key, n))
    ensures forall i :: 0 <= i < n ==> HasBit(h, WithBits(h, vData, key, n), i, key)
  {
    hide Bit, Index, WithBit;
    if n > 0 {
      WithBitsHold(h, vData, key, n - 1);
      var u := WithBits(h, vData, key, n - 1);
      var w := WithBit(u, Index(h, |u|, n - 1, key));
      WithBitCovers(u, Index(h, |u|, n - 1, key));
      CoversTransitive(vData, u, w);
      forall i | 0 <= i < n - 1 ensures HasBit(h, w, i, key) { assert HasBit(h, u, i, key); }
    }
  }

  /** Inserting a key sets its bits and no others. */
  lemma WithKeyExact(h: Hashes, vData: Bytes, key: Bytes, m: nat)
    requires vData != [] && m < 8 * |vData|
    ensures Bit(WithKey(h, vData, key), m) <==>
      Bit(vData, m) || exists i :: 0 <= i < h.count && Index(h, |vData|, i, key) == m
  {
    WithBitsExact(h, vData, key, h.count, m);
  }

  lemma {:induction false} WithBitsExact(h: Hashes, vData: Bytes, key: Bytes, n: nat, m: nat)
    requires vData != [] && m < 8 * |vData|
    ensures Bit(WithBits(h, vData, key, n), m) <==>
      Bit(vData, m) || exists i :: 0 <= i < n && Index(h, |vData|, i, key) == m
  {
    hide Bit, Index, WithBit;
    if n > 0 {
      WithBitsExact(h, vData, key, n - 1, m);
      WithBitExact(WithBits(h, vData, key, n - 1), Index(h, |vData|, n - 1, key), m);
    }
  }

  /** The key is held, and nothing held before is lost. */
  lemma WithKeyHolds(h: Hashes, vData: Bytes, key: Bytes)
    requires vData != []
    ensures Covers(vData, WithKey(h, vData, key)) && Holds(h, WithKey(h, vData, key), key)
  {
    hide Covers, HasBit, WithBits;
    WithBitsHold(h, vData, key, h.count);
  }

  /** A full array stays as it is. */
  lemma {:induction false} FullWithBits(h: Hashes, vData: Bytes, key: Bytes, n: nat)
    requires vData != [] && AllBytes(vData, 0xff)
    ensures WithBits(h, vData, key, n) == vData
  {
    hide Mask, Index;
    if n > 0 {
      FullWithBits(h, vData, key, n - 1);
      var k := Index(h, |vData|, n - 1, key);
      OrKeeps(vData[k / 8], Mask(k % 8), k % 8);
      assert WithBit(vData, k) == vData;
    }
  }

  ghost predicate AllBytes(vData: Bytes, b: bv8) {
    forall k :: 0 <= k < |vData| ==> vData[k] == b
  }

  /** A full array holds every key. */
  lemma FullHolds(h: Hashes, vData: Bytes, key: Bytes)
    requires vData != [] && AllBytes(vData, 0xff)
    ensures Holds(h, vData, key)
  {
    hide Mask;
    forall i | 0 <= i < h.count ensures HasBit(h, vData, i, key) {
      OrKeeps(0, 0, Index(h, |vData|, i, key) % 8);
    }
  }

  /** An empty one holds none, provided there is a hash function at all. */
  lemma EmptyHolds(h: Hashes, vData: Bytes, key: Bytes)
    requires vData != [] && AllBytes(vData, 0)
    ensures Holds(h, vData, key) <==> h.count == 0
  {
    hide Mask;
    if h.count > 0 {
      OrKeeps(0, 0, Index(h, |vData|, 0, key) % 8);
      assert !HasBit(h, vData, 0, key);
    }
  }

  // ---------------------------------------------------------------- transactions

  /** What GetOp yields for a script before it fails or ends, and whether Solver takes it for a payment to a public
      key or to several. */
  datatype Script = Script(data: seq<Bytes>, paysToKey: bool)

  datatype TxIn = TxIn(prevout: Bytes, scriptSig: Script)

  /** The serialized outpoint of each output of a transaction, its hash, outputs and inputs. */
  datatype Tx = Tx(hash: Bytes, outpoint: nat -> Bytes, vout: seq<Script>, vin: seq<TxIn>)

  ghost predicate MatchesScript(h: Hashes, vData: Bytes, s: Script)
    requires vData != []
  {
    exists k :: 0 <= k < |s.data| && s.data[k] != [] && Holds(h, vData, s.data[k])
  }

  ghost predicate MatchesInput(h: Hashes, vData: Bytes, txin: TxIn)
    requires vData != []
  {
    Holds(h, vData, txin.prevout) || MatchesScript(h, vData, txin.scriptSig)
  }

  ghost predicate MatchesOutputs(h: Hashes, vData: Bytes, vout: seq<Script>)
    requires vData != []
  {
    exists i :: 0 <= i < |vout| && MatchesScript(h, vData, vout[i])
  }

  ghost predicate MatchesInputs(h: Hashes, vData: Bytes, vin: seq<TxIn>)
    requires vData != []
  {
    exists i :: 0 <= i < |vin| && MatchesInput(h, vData, vin[i])
  }

  /** The hash, an element of an output script, an outpoint spent, or an element of an input script is in the filter. */
  ghost predicate Relevant(h: Hashes, vData: Bytes, tx: Tx)
    requires vData != []
  {
    Holds(h, vData, tx.hash) || MatchesOutputs(h, vData, tx.vout) || MatchesInputs(h, vData, tx.vin)
  }

  /** In figures: what makes a transaction relevant. Elements without any byte never count. */
  lemma RelevantInFigures(h: Hashes, vData: Bytes, tx: Tx)
    requires vData != []
    ensures Relevant(h, vData, tx) <==>
      || Holds(h, vData, tx.hash)
      || (exists i, k :: 0 <= i < |tx.vout| && 0 <= k < |tx.vout[i].data|
                         && tx.vout[i].data[k] != [] && Holds(h, vData, tx.vout[i].data[k]))
      || (exists i :: 0 <= i < |tx.vin| && Holds(h, vData, tx.vin[i].prevout))
      || (exists i, k :: 0 <= i < |tx.vin| && 0 <= k < |tx.vin[i].scriptSig.data|
                         && tx.vin[i].scriptSig.data[k] != [] && Holds(h, vData, tx.vin[i].scriptSig.data[k]))
  {
    hide Holds;
    if MatchesOutputs(h, vData, tx.vout) {
      var i :| 0 <= i < |tx.vout| && MatchesScript(h, vData, tx.vout[i]);
    }
    if MatchesInputs(h, vData, tx.vin) {
      var i :| 0 <= i < |tx.vin| && MatchesInput(h, vData, tx.vin[i]);
    }
    forall i, k | 0 <= i < |tx.vout| && 0 <= k < |tx.vout[i].data| && tx.vout[i].data[k] != []
                  && Holds(h, vData, tx.vout[i].data[k])
      ensures MatchesOutputs(h, vData, tx.vout)
    {
      assert MatchesScript(h, vData, tx.vout[i]);
    }
    forall i | 0 <= i < |tx.vin| && Holds(h, vData, tx.vin[i].prevout) ensures MatchesInputs(h, vData, tx.vin) {
      assert MatchesInput(h, vData, tx.vin[i]);
    }
    forall i, k | 0 <= i < |tx.vin| && 0 <= k < |tx.vin[i].scriptSig.data| && tx.vin[i].scriptSig.data[k] != []
                  && Holds(h, vData, tx.vin[i].scriptSig.data[k])
      ensures MatchesInputs(h, vData, tx.vin)
    {
      assert MatchesInput(h, vData, tx.vin[i]);
    }
  }

  lemma CoversMatches(h: Hashes, a: Bytes, b: Bytes, s: Script)
    requires a != [] && Covers(a, b) && MatchesScript(h, a, s)
    ensures MatchesScript(h, b, s)
  {
    hide Holds, Covers;
    var k :| 0 <= k < |s.data| && s.data[k] != [] && Holds(h, a, s.data[k]);
    assert |a| == |b| by { CoversSize(a, b); }
    CoversKeeps(h, a, b, s.data[k]);
  }

  lemma CoversSize(a: Bytes, b: Bytes)
    requires Covers(a, b)
    ensures |a| == |b|
  {
  }

  lemma CoversTransitive(a: Bytes, b: Bytes, c: Bytes)
    requires Covers(a, b) && Covers(b, c)
    ensures Covers(a, c)
  {
    hide Bit;
  }

  /** Whether a matching output is added: always, or if it pays to public keys. */
  predicate Updates(nFlags: nat, s: Script) {
    nFlags % 4 == BLOOM_UPDATE_ALL || (nFlags % 4 == BLOOM_UPDATE_P2PUBKEY_ONLY && s.paysToKey)
  }

  /** The two low bits of the flags decide: 0 for no output, 1 for every one, 2 for payments to keys, 3 for none. */
  lemma UpdatesByFlag(q: nat, s: Script)
    ensures !Updates(4 * q, s) && Updates(4 * q + 1, s) && (Updates(4 * q + 2, s) <==> s.paysToKey) &&
      !Updates(4 * q + 3, s)
  {
  }

  /** Output i matches the filter it finds and is to be remembered. */
  ghost predicate Remembered(h: Hashes, nFlags: nat, vData: Bytes, tx: Tx, i: nat)
    requires vData != [] && i < |tx.vout|
  {
    MatchesScript(h, vData, tx.vout[i]) && Updates(nFlags, tx.vout[i])
  }

  /** The filter after the first n outputs of a transaction: each of them meets the filter that those before it left. */
  ghost function Scanned(h: Hashes, nFlags: nat, vData: Bytes, tx: Tx, n: nat): (r: Bytes)
    requires vData != [] && n <= |tx.vout|
    ensures |r| == |vData|
  {
    if n == 0 then vData
    else
      var u := Scanned(h, nFlags, vData, tx, n - 1);
      if Remembered(h, nFlags, u, tx, n - 1) then WithKey(h, u, tx.outpoint(n - 1)) else u
  }

  lemma {:induction false} ScannedCovers(h: Hashes, nFlags: nat, vData: Bytes, tx: Tx, m: nat, n: nat)
    requires vData != [] && m <= n <= |tx.vout|
    ensures Covers(Scanned(h, nFlags, vData, tx, m), Scanned(h, nFlags, vData, tx, n))
    decreases n
  {
    hide Covers, Holds, Remembered, WithKey;
    var u := Scanned(h, nFlags, vData, tx, m);
    if m == n {
      CoversItself(u);
    } else {
      ScannedCovers(h, nFlags, vData, tx, m, n - 1);
      var w := Scanned(h, nFlags, vData, tx, n - 1);
      if Remembered(h, nFlags, w, tx, n - 1) {
        WithKeyHolds(h, w, tx.outpoint(n - 1));
        CoversTransitive(u, w, WithKey(h, w, tx.outpoint(n - 1)));
      }
    }
  }

  /** A scan sets no bits but those of outpoints that it remembers. */
  lemma {:induction false} ScannedExact(h: Hashes, nFlags: nat, vData: Bytes, tx: Tx, n: nat, m: nat)
    requires vData != [] && n <= |tx.vout| && m < 8 * |vData| && Bit(Scanned(h, nFlags, vData, tx, n), m)
    ensures Bit(vData, m) ||
      exists i, j ::
        && 0 <= i < n && 0 <= j < h.count && Remembered(h, nFlags, Scanned(h, nFlags, vData, tx, i), tx, i)
        && Index(h, |vData|, j, tx.outpoint(i)) == m
  {
    hide Bit, Index, Holds, MatchesScript, WithBits;
    if n > 0 {
      var u := Scanned(h, nFlags, vData, tx, n - 1);
      if Bit(u, m) {
        ScannedExact(h, nFlags, vData, tx, n - 1, m);
      } else {
        WithKeyExact(h, u, tx.outpoint(n - 1), m);
        var j :| 0 <= j < h.count && Index(h, |vData|, j, tx.outpoint(n - 1)) == m;
        assert Remembered(h, nFlags, u, tx, n - 1);
      }
    }
  }

  lemma CoversItself(a: Bytes)
    ensures Covers(a, a)
  {
  }

  /** An output that matches at its turn is in the filter afterwards, if it is to be remembered. */
  lemma ScannedHolds(h: Hashes, nFlags: nat, vData: Bytes, tx: Tx, i: nat)
    requires vData != [] && i < |tx.vout| && Remembered(h, nFlags, Scanned(h, nFlags, vData, tx, i), tx, i)
    ensures Holds(h, Scanned(h, nFlags, vData, tx, |tx.vout|), tx.outpoint(i))
  {
    hide Covers, Holds, Remembered, WithKey;
    WithKeyHolds(h, Scanned(h, nFlags, vData, tx, i), tx.outpoint(i));
    ScannedCovers(h, nFlags, vData, tx, i + 1, |tx.vout|);
    CoversKeeps(h, Scanned(h, nFlags, vData, tx, i + 1), Scanned(h, nFlags, vData, tx, |tx.vout|), tx.outpoint(i));
  }

  /** Without a match nothing changes. */
  lemma {:induction false} ScannedSame(h: Hashes, nFlags: nat, vData: Bytes, tx: Tx, n: nat)
    requires vData != [] && n <= |tx.vout| && !MatchesOutputs(h, vData, tx.vout)
    ensures Scanned(h, nFlags, vData, tx, n) == vData
  {
    hide MatchesScript;
    if n > 0 { ScannedSame(h, nFlags, vData, tx, n - 1); }
  }

  lemma {:induction false} ScannedFull(h: Hashes, nFlags: nat, vData: Bytes, tx: Tx, n: nat)
    requires vData != [] && n <= |tx.vout| && AllBytes(vData, 0xff)
    ensures Scanned(h, nFlags, vData, tx, n) == vData
  {
    hide Remembered, WithBits;
    if n > 0 {
      ScannedFull(h, nFlags, vData, tx, n - 1);
      FullWithBits(h, vData, tx.outpoint(n - 1), h.count);
    }
  }

  class CBloomFilter {
    const h: Hashes
    const nFlags: nat
    var vData: Bytes
    var isFull: bool
    var isEmpty: bool

    ghost predicate Valid()
      reads this
    {
      && vData != [] && h.count > 0
      && (isFull ==> AllBytes(vData, 0xff)) && (isEmpty ==> AllBytes(vData, 0))
    }

    constructor (size: nat, h: Hashes, nFlags: nat)
      requires size > 0 && h.count > 0
      ensures Valid() && |vData| == size && this.h == h && this.nFlags == nFlags
    {
      vData := seq(size, _ => 0);
      isFull, isEmpty := false, false;
      this.h, this.nFlags := h, nFlags;
    }

    method insert(key: Bytes)
      requires Valid()
      modifies this`vData, this`isEmpty
      ensures Valid() && vData == WithKey(h, old(vData), key)
      ensures Covers(old(vData), vData) && Holds(h, vData, key)
    {
      hide Bit, Index, Covers, Holds, WithBit, AllBytes;
      WithKeyHolds(h, vData, key);
      if isFull {
        FullWithBits(h, vData, key, h.count);
        return;
      }
      for i := 0 to h.count
        invariant vData != [] && vData == WithBits(h, old(vData), key, i)
      {
        var nIndex := Index(h, |vData|, i, key);
        assert WithBits(h, old(vData), key, i + 1) == WithBit(vData, nIndex);
        vData := WithBit(vData, nIndex);
      }
      isEmpty := false;
    }

    /** With or without the shortcuts, the answer is the plain bit test. */
    method contains(key: Bytes) returns (found: bool)
      requires Valid()
      ensures found <==> Holds(h, vData, key)
    {
      hide Bit, Index, AllBytes;
      if isFull {
        FullHolds(h, vData, key);
        return true;
      }
      if isEmpty {
        EmptyHolds(h, vData, key);
        return false;
      }
      for i := 0 to h.count
        invariant forall j :: 0 <= j < i ==> HasBit(h, vData, j, key)
      {
        if !HasBit(h, vData, i, key) { return false; }
      }
      return true;
    }

    method UpdateEmptyFull()
      requires Valid()
      modifies this`isFull, this`isEmpty
      ensures Valid()
      ensures isFull <==> AllBytes(vData, 0xff)
      ensures isEmpty <==> AllBytes(vData, 0)
    {
      var full, empty := true, true;
      for i := 0 to |vData|
        invariant full <==> AllBytes(vData[..i], 0xff)
        invariant empty <==> AllBytes(vData[..i], 0)
      {
        assert vData[..i + 1] == vData[..i] + [vData[i]];
        full := full && vData[i] == 0xff;
        empty := empty && vData[i] == 0;
      }
      assert vData[..|vData|] == vData;
      isFull, isEmpty := full, empty;
    }

    /** Whether an element of a script is in the filter. */
    method ContainsElement(s: Script) returns (found: bool)
      requires Valid()
      ensures found <==> MatchesScript(h, vData, s)
    {
      hide Holds;
      for k := 0 to |s.data|
        invariant forall j :: 0 <= j < k ==> s.data[j] == [] || !Holds(h, vData, s.data[j])
      {
        if s.data[k] != [] {
          found := contains(s.data[k]);
          if found { return; }
        }
      }
      return false;
    }

    /** Each output that matches the filter as it is when its turn comes is remembered. */
    method ScanOutputs(tx: Tx) returns (fFound: bool)
      requires Valid()
      modifies this`vData, this`isEmpty
      ensures Valid() && vData == Scanned(h, nFlags, old(vData), tx, |tx.vout|)
      ensures fFound <==> MatchesOutputs(h, old(vData), tx.vout)
    {
      hide Covers, Holds, MatchesScript, AllBytes, WithKey;
      fFound := false;
      for i := 0 to |tx.vout|
        invariant Valid() && vData == Scanned(h, nFlags, old(vData), tx, i) && (!fFound ==> vData == old(vData))
        invariant fFound <==> exists j :: 0 <= j < i && MatchesScript(h, old(vData), tx.vout[j])
      {
        var s := tx.vout[i];
        ScannedCovers(h, nFlags, old(vData), tx, 0, i);
        if MatchesScript(h, old(vData), s) { CoversMatches(h, old(vData), vData, s); }
        var found := ContainsElement(s);
        if found {
          fFound := true;
          if Updates(nFlags, s) { insert(tx.outpoint(i)); }
        }
      }
    }

    /** The answer is whether the transaction was relevant to the filter before the call. */
    method IsRelevantAndUpdate(tx: Tx) returns (relevant: bool)
      requires Valid()
      modifies this`vData, this`isEmpty
      ensures Valid() && vData == Scanned(h, nFlags, old(vData), tx, |tx.vout|)
      ensures relevant <==> Relevant(h, old(vData), tx)
    {
      hide Holds, MatchesScript, AllBytes, MatchesOutputs, Scanned;
      if isFull {
        FullHoldsAll(h, vData);
        ScannedFull(h, nFlags, vData, tx, |tx.vout|);
        return true;
      }
      if isEmpty {
        NothingRelevant(h, vData, tx);
        ScannedSame(h, nFlags, vData, tx, |tx.vout|);
        return false;
      }
      var fFound := contains(tx.hash);
      var matched := ScanOutputs(tx);
      if fFound || matched { return true; }
      ScannedSame(h, nFlags, old(vData), tx, |tx.vout|);
      for i := 0 to |tx.vin|
        invariant Valid() && vData == Scanned(h, nFlags, old(vData), tx, |tx.vout|)
        invariant vData == old(vData)
        invariant forall j :: 0 <= j < i ==> !MatchesInput(h, vData, tx.vin[j])
      {
        var spent := contains(tx.vin[i].prevout);
        if spent { return true; }
        var element := ContainsElement(tx.vin[i].scriptSig);
        if element { return true; }
      }
      return false;
    }
  }

  lemma KeepsHeld(h: Hashes, a: Bytes, b: Bytes)
    requires a != [] && b != [] && Covers(a, b)
    ensures forall key :: Holds(h, a, key) ==> Holds(h, b, key)
  {
    hide Covers, Holds;
    forall key | Holds(h, a, key) ensures Holds(h, b, key) { CoversKeeps(h, a, b, key); }
  }

  lemma FullHoldsAll(h: Hashes, vData: Bytes)
    requires vData != [] && AllBytes(vData, 0xff)
    ensures forall key :: Holds(h, vData, key)
  {
    hide Holds;
    forall key ensures Holds(h, vData, key) { FullHolds(h, vData, key); }
  }

  lemma NothingRelevant(h: Hashes, vData: Bytes, tx: Tx)
    requires vData != [] && AllBytes(vData, 0) && h.count > 0
    ensures !Relevant(h, vData, tx) && forall s :: !MatchesScript(h, vData, s)
  {
    hide Holds;
    forall key ensures !Holds(h, vData, key) { EmptyHolds(h, vData, key); }
  }

  /** Whoever spends a remembered output is relevant, to this filter and to any that covers it. */
  lemma SpenderRelevant(h: Hashes, a: Bytes, b: Bytes, outpoint: Bytes, spender: Tx, k: nat)
    requires a != [] && Covers(a, b) && Holds(h, a, outpoint) && k < |spender.vin| && spender.vin[k].prevout == outpoint
    ensures Relevant(h, b, spender)
  {
    hide Holds, MatchesOutputs, MatchesScript;
    CoversSize(a, b);
    CoversKeeps(h, a, b, outpoint);
    assert MatchesInput(h, b, spender.vin[k]);
  }

  // ---------------------------------------------------------------- whole runs

  datatype Op = Insert(key: Bytes) | Update | Match(tx: Tx)

  /** The filter after the first n operations. */
  ghost function After(h: Hashes, nFlags: nat, vData: Bytes, ops: seq<Op>, n: nat): (r: Bytes)
    requires vData != [] && n <= |ops|
    ensures |r| == |vData|
  {
    if n == 0 then vData
    else
      var u := After(h, nFlags, vData, ops, n - 1);
      match ops[n - 1]
      case Insert(key) => WithKey(h, u, key)
      case Update => u
      case Match(tx) => Scanned(h, nFlags, u, tx, |tx.vout|)
  }

  lemma {:induction false} AfterCovers(h: Hashes, nFlags: nat, vData: Bytes, ops: seq<Op>, m: nat, n: nat)
    requires vData != [] && m <= n <= |ops|
    ensures Covers(After(h, nFlags, vData, ops, m), After(h, nFlags, vData, ops, n))
    decreases n
  {
    hide Covers, Holds, WithKey, Scanned;
    var u := After(h, nFlags, vData, ops, m);
    if m == n {
      CoversItself(u);
    } else {
      AfterCovers(h, nFlags, vData, ops, m, n - 1);
      var w := After(h, nFlags, vData, ops, n - 1);
      OneCovers(h, nFlags, w, ops[n - 1]);
      CoversTransitive(u, w, After(h, nFlags, vData, ops, n));
    }
  }

  lemma OneCovers(h: Hashes, nFlags: nat, u: Bytes, op: Op)
    requires u != []
    ensures op.Insert? ==> Covers(u, WithKey(h, u, op.key))
    ensures Covers(u, u)
    ensures op.Match? ==> Covers(u, Scanned(h, nFlags, u, op.tx, |op.tx.vout|))
  {
    hide Covers, Holds, WithKey, Remembered;
    CoversItself(u);
    if op.Insert? { WithKeyHolds(h, u, op.key); }
    if op.Match? { ScannedCovers(h, nFlags, u, op.tx, 0, |op.tx.vout|); }
  }

  /** Operation n matches a spender of an output that operation i had the filter remember. */
  ghost predicate SpendsRemembered(h: Hashes, nFlags: nat, vData: Bytes, ops: seq<Op>, i: nat, n: nat)
    requires vData != [] && i < |ops| && n < |ops|
  {
    ops[i].Match? && ops[n].Match?
    && var u, tx := After(h, nFlags, vData, ops, i), ops[i].tx;
       exists j, k :: 0 <= j < |tx.vout| && Spends(ops[n].tx, k, tx.outpoint(j)) && MetRemembered(h, nFlags, u, tx, j)
  }

  predicate Spends(spender: Tx, k: int, outpoint: Bytes) {
    0 <= k < |spender.vin| && spender.vin[k].prevout == outpoint
  }

  /** Output j matches at its turn, possibly only because an output before it made the filter grow, and is remembered.
      */
  ghost predicate MetRemembered(h: Hashes, nFlags: nat, vData: Bytes, tx: Tx, j: nat)
    requires vData != [] && j < |tx.vout|
  {
    Remembered(h, nFlags, Scanned(h, nFlags, vData, tx, j), tx, j)
  }

  /** Once an output is remembered, every later spender of it is relevant. */
  lemma LaterSpender(h: Hashes, nFlags: nat, vData: Bytes, ops: seq<Op>, i: nat, n: nat)
    requires vData != [] && i < n < |ops| && SpendsRemembered(h, nFlags, vData, ops, i, n)
    ensures Relevant(h, After(h, nFlags, vData, ops, n), ops[n].tx)
  {
    hide Covers, Holds, Scanned, Remembered, Relevant;
    var spender := ops[n].tx;
    var tx, u := ops[i].tx, After(h, nFlags, vData, ops, i);
    var j, k :| 0 <= j < |tx.vout| && Spends(spender, k, tx.outpoint(j)) && MetRemembered(h, nFlags, u, tx, j);
    ScannedHolds(h, nFlags, u, tx, j);
    AfterCovers(h, nFlags, vData, ops, i + 1, n);
    SpenderRelevant(h, After(h, nFlags, vData, ops, i + 1), After(h, nFlags, vData, ops, n), tx.outpoint(j), spender,
      k);
  }

  lemma InsertedStays(h: Hashes, nFlags: nat, vData: Bytes, ops: seq<Op>, i: nat)
    requires vData != [] && i < |ops| && ops[i].Insert?
    ensures Holds(h, After(h, nFlags, vData, ops, |ops|), ops[i].key)
  {
    hide Covers, Holds, WithKey, Scanned;
    WithKeyHolds(h, After(h, nFlags, vData, ops, i), ops[i].key);
    AfterCovers(h, nFlags, vData, ops, i + 1, |ops|);
    CoversKeeps(h, After(h, nFlags, vData, ops, i + 1), After(h, nFlags, vData, ops, |ops|), ops[i].key);
  }

  /** Whatever was in the filter before a run, or is inserted during it, is in the filter after it; a transaction is
      reported exactly if it is relevant at its turn, and so is every later spender of a remembered output. */
  method Run(filter: CBloomFilter, ops: seq<Op>) returns (answers: seq<bool>)
    requires filter.Valid()
    modifies filter
    ensures filter.Valid() && |answers| == |ops|
    ensures filter.vData == After(filter.h, filter.nFlags, old(filter.vData), ops, |ops|)
    ensures forall key :: old(Holds(filter.h, filter.vData, key)) ==> Holds(filter.h, filter.vData, key)
    ensures forall i :: 0 <= i < |ops| && ops[i].Insert? ==> Holds(filter.h, filter.vData, ops[i].key)
    ensures forall n :: 0 <= n < |ops| && ops[n].Match? ==>
      (answers[n] <==> Relevant(filter.h, After(filter.h, filter.nFlags, old(filter.vData), ops, n), ops[n].tx))
    ensures forall i, n ::
      0 <= i < n < |ops| && SpendsRemembered(filter.h, filter.nFlags, old(filter.vData), ops, i, n) ==> answers[n]
  {
    hide Covers, Holds, AllBytes, Relevant, Scanned, WithKey, SpendsRemembered;
    ghost var v := filter.vData;
    answers := [];
    for n := 0 to |ops|
      invariant filter.Valid() && |answers| == n && filter.vData == After(filter.h, filter.nFlags, v, ops, n)
      invariant forall m :: 0 <= m < n && ops[m].Match? ==>
        (answers[m] <==> Relevant(filter.h, After(filter.h, filter.nFlags, v, ops, m), ops[m].tx))
    {
      var relevant := false;
      match ops[n] {
        case Insert(key) => filter.insert(key);
        case Update => filter.UpdateEmptyFull();
        case Match(tx) => relevant := filter.IsRelevantAndUpdate(tx);
      }
      answers := answers + [relevant];
    }
    AfterCovers(filter.h, filter.nFlags, v, ops, 0, |ops|);
    KeepsHeld(filter.h, v, filter.vData);
    forall i | 0 <= i < |ops| && ops[i].Insert? ensures Holds(filter.h, filter.vData, ops[i].key) {
      InsertedStays(filter.h, filter.nFlags, v, ops, i);
    }
    forall i, n | 0 <= i < n < |ops| && SpendsRemembered(filter.h, filter.nFlags, v, ops, i, n) ensures answers[n] {
      LaterSpender(filter.h, filter.nFlags, v, ops, i, n);
      SpenderMatches(filter.h, filter.nFlags, v, ops, i, n);
    }
  }

  lemma SpenderMatches(h: Hashes, nFlags: nat, vData: Bytes, ops: seq<Op>, i: nat, n: nat)
    requires vData != [] && i < |ops| && n < |ops| && SpendsRemembered(h, nFlags, vData, ops, i, n)
    ensures ops[n].Match?
  {
  }
}
