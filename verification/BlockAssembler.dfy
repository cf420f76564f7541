/** Choosing the transactions of a new block (src/miner.cpp). */
module BlockAssembler {

  import opened Multisets

  const COIN := 100_000_000
  const MAX_BLOCK_SIZE := 840_000
  const MAX_BLOCK_SIGOPS := MAX_BLOCK_SIZE / 50
  const UINT := 0x1_0000_0000

  type Hash = int

  datatype OutPoint = OutPoint(hash: Hash, n: nat)

  type Size = n: int | n > 0 witness 1

  datatype Tx = Tx(vin: seq<OutPoint>, vout: seq<int>, nTime: int, size: Size, sigOps: nat,
                   coinBase: bool, coinStake: bool, final: bool)

  /** An output that ReadFromDisk finds: its value and how deep it is in the main chain. */
  datatype ChainOut = ChainOut(nValue: int, nConf: int)

  /** What the assembler asks of the rest of the node. FetchInputs, GetValueIn, GetP2SHSigOpCount and ConnectInputs
      depend on the transaction and on those included before it, GetMinFee on the size so far. The three size
      arguments are the node's options before they are limited. */
  datatype World = World(
    pool: map<Hash, Tx>, chain: map<OutPoint, ChainOut>,
    argMaxSize: int, argPrioritySize: int, argMinSize: int, nMinTxFee: int,
    nAdjustedTime: int, fProofOfStake: bool, nCoinbaseTime: int,
    fetch: (Hash, seq<Hash>) -> bool, valueIn: (Hash, seq<Hash>) -> int,
    p2sh: (Hash, seq<Hash>) -> nat, connect: (Hash, seq<Hash>) -> bool, minFee: (Hash, int) -> int)

  // ---------------------------------------------------------------- candidates

  predicate Eligible(w: World, h: Hash) {
    h in w.pool && !w.pool[h].coinBase && !w.pool[h].coinStake && w.pool[h].final
  }

  /** Every input of every candidate is on the chain or an output of the pool. */
  ghost predicate Closed(w: World) {
    forall h, k :: Eligible(w, h) && 0 <= k < |w.pool[h].vin| ==> Found(w, w.pool[h].vin[k])
  }

  predicate Found(w: World, p: OutPoint) {
    p in w.chain || (p.hash in w.pool && p.n < |w.pool[p.hash].vout|)
  }

  /** It is enough that every input of the pool is an output on the chain or of the pool. */
  lemma ClosedPool(w: World)
    requires forall h, k :: h in w.pool && 0 <= k < |w.pool[h].vin| ==>
      var p := w.pool[h].vin[k]; p in w.chain || (p.hash in w.pool && p.n < |w.pool[p.hash].vout|)
    ensures Closed(w)
  {
  }

  /** The pool transactions among the first k inputs: those not on the chain. */
  ghost function ParentsUpTo(w: World, h: Hash, k: nat): set<Hash>
    requires h in w.pool && k <= |w.pool[h].vin|
  {
    set j | 0 <= j < k && w.pool[h].vin[j] !in w.chain :: w.pool[h].vin[j].hash
  }

  ghost function Parents(w: World, h: Hash): set<Hash>
    requires h in w.pool
  {
    ParentsUpTo(w, h, |w.pool[h].vin|)
  }

  ghost function TotalIn(w: World, h: Hash, k: nat): int
    requires Eligible(w, h) && Closed(w) && k <= |w.pool[h].vin|
  {
    if k == 0 then 0
    else
      var p := w.pool[h].vin[k - 1];
      assert Found(w, p);
      TotalIn(w, h, k - 1) + if p in w.chain then w.chain[p].nValue else w.pool[p.hash].vout[p.n]
  }

  /** Value times age, over the inputs on the chain. */
  ghost function CoinAge(w: World, h: Hash, k: nat): real
    requires h in w.pool && k <= |w.pool[h].vin|
  {
    if k == 0 then 0.0
    else
      var p := w.pool[h].vin[k - 1];
      CoinAge(w, h, k - 1) + if p in w.chain then w.chain[p].nValue as real * w.chain[p].nConf as real else 0.0
  }

  function ValueOut(vout: seq<int>): int {
    if vout == [] then 0 else vout[0] + ValueOut(vout[1..])
  }

  ghost function Priority(w: World, h: Hash): real
    requires h in w.pool
  {
    CoinAge(w, h, |w.pool[h].vin|) / w.pool[h].size as real
  }

  ghost function FeePerKb(w: World, h: Hash): real
    requires Eligible(w, h) && Closed(w)
  {
    (TotalIn(w, h, |w.pool[h].vin|) - ValueOut(w.pool[h].vout)) as real / (w.pool[h].size as real / 1000.0)
  }

  lemma {:induction false} ValueOutAdds(a: seq<int>, b: seq<int>)
    ensures ValueOut(a + b) == ValueOut(a) + ValueOut(b)
    ensures |a| == 1 ==> ValueOut(a) == a[0]
  {
    if a == [] {
      assert a + b == b;
    } else {
      ValueOutAdds(a[1..], b);
      assert (a + b)[1..] == a[1..] + b;
    }
  }

  /** Priority is value times age for each byte, and the fee rate is the fee for each 1000 bytes; here for a
      transaction with one input on the chain. */
  lemma RatesOfOneInput(w: World, h: Hash, p: OutPoint)
    requires Eligible(w, h) && Closed(w) && w.pool[h].vin == [p] && p in w.chain
    ensures Priority(w, h) * w.pool[h].size as real == w.chain[p].nValue as real * w.chain[p].nConf as real
    ensures FeePerKb(w, h) * w.pool[h].size as real == 1000.0 * (w.chain[p].nValue - ValueOut(w.pool[h].vout)) as real
  {
    hide Closed, ValueOut;
    var size := w.pool[h].size as real;
    assert CoinAge(w, h, 1) == CoinAge(w, h, 0) + w.chain[p].nValue as real * w.chain[p].nConf as real;
    assert TotalIn(w, h, 1) == TotalIn(w, h, 0) + w.chain[p].nValue;
    Undo(CoinAge(w, h, 1), size);
    Undo((w.chain[p].nValue - ValueOut(w.pool[h].vout)) as real, size / 1000.0);
  }

  lemma Undo(x: real, y: real)
    requires y > 0.0
    ensures x / y * y == x
  {
  }

  // ---------------------------------------------------------------- the queue and the orphans

  datatype TxPriority = TxPriority(dPriority: real, dFeePerKb: real, tx: Hash)

  predicate Less(byFee: bool, a: TxPriority, b: TxPriority) {
    if byFee then
      if a.dFeePerKb == b.dFeePerKb then a.dPriority < b.dPriority else a.dFeePerKb < b.dFeePerKb
    else
      if a.dPriority == b.dPriority then a.dFeePerKb < b.dFeePerKb else a.dPriority < b.dPriority
  }

  predicate IsTop(byFee: bool, q: seq<TxPriority>, k: int) {
    0 <= k < |q| && forall j :: 0 <= j < |q| ==> !Less(byFee, q[k], q[j])
  }

  lemma {:induction false} TopExists(byFee: bool, q: seq<TxPriority>)
    requires q != []
    ensures exists k :: IsTop(byFee, q, k)
  {
    var n := |q| - 1;
    if n == 0 {
      assert IsTop(byFee, q, 0);
    } else {
      TopExists(byFee, q[..n]);
      var k :| IsTop(byFee, q[..n], k);
      assert forall j :: 0 <= j < n ==> q[..n][j] == q[j];
      assert IsTop(byFee, q, if Less(byFee, q[k], q[n]) then n else k);
    }
  }

  function Txs(q: seq<TxPriority>): (s: seq<Hash>)
    ensures |s| == |q| && forall i :: 0 <= i < |q| ==> s[i] == q[i].tx
  {
    seq(|q|, i requires 0 <= i < |q| => q[i].tx)
  }

  /** "top" is an element of q that no other one beats, and "rest" is q without it. */
  ghost predicate Popped(byFee: bool, q: seq<TxPriority>, top: TxPriority, rest: seq<TxPriority>) {
    exists k :: 0 <= k < |q| && IsTop(byFee, q, k) && top == q[k] && rest == q[..k] + q[k + 1..]
  }

  lemma PoppedCounts(byFee: bool, q: seq<TxPriority>, top: TxPriority, rest: seq<TxPriority>)
    requires Popped(byFee, q, top, rest)
    ensures multiset(Txs(q)) == multiset(Txs(rest)) + multiset{top.tx}
    ensures top in q && forall e :: e in rest ==> e in q
  {
    hide IsTop, Txs;
    var k :| 0 <= k < |q| && top == q[k] && rest == q[..k] + q[k + 1..];
    var s := Txs(q);
    RemovedCounts(s, k);
    assert Txs(rest) == s[..k] + s[k + 1..];
  }

  datatype COrphan = COrphan(ptx: Hash, setDependsOn: set<Hash>, dPriority: real, dFeePerKb: real)

  ghost predicate Depends(dependers: map<Hash, seq<nat>>, p: Hash, i: int) {
    p in dependers && exists k :: 0 <= k < |dependers[p]| && dependers[p][k] == i
  }

  /** Priority and fee rate are those of the transaction. */
  ghost predicate Rated(w: World, e: TxPriority)
    requires Closed(w)
  {
    Eligible(w, e.tx) && e.dPriority == Priority(w, e.tx) && e.dFeePerKb == FeePerKb(w, e.tx)
  }

  function Entry(o: COrphan): TxPriority {
    TxPriority(o.dPriority, o.dFeePerKb, o.ptx)
  }

  /** The orphans are the seen candidates with parents in the pool, once each, and mapDependers lists under every
      parent exactly the orphans that have it. */
  ghost predicate Indexed(w: World, orphans: seq<COrphan>, dependers: map<Hash, seq<nat>>, seen: set<Hash>)
    requires Closed(w)
  {
    && (forall i, j :: 0 <= i < j < |orphans| ==> orphans[i].ptx != orphans[j].ptx)
    && (forall i :: 0 <= i < |orphans| ==>
          Rated(w, Entry(orphans[i])) && orphans[i].ptx in seen && Parents(w, orphans[i].ptx) != {})
    && (forall h :: h in seen && Eligible(w, h) && Parents(w, h) != {} ==> IsOrphan(orphans, h))
    && (forall p, i :: Depends(dependers, p, i) <==> 0 <= i < |orphans| && p in Parents(w, orphans[i].ptx))
  }

  ghost predicate IsOrphan(orphans: seq<COrphan>, h: Hash) {
    exists i :: 0 <= i < |orphans| && orphans[i].ptx == h
  }

  /** Every orphan waits exactly for its parents outside "done". */
  ghost predicate Waiting(w: World, orphans: seq<COrphan>, done: set<Hash>) {
    forall i :: 0 <= i < |orphans| ==>
      orphans[i].ptx in w.pool && orphans[i].setDependsOn == Parents(w, orphans[i].ptx) - done
  }

  ghost predicate Ready(w: World, orphans: seq<COrphan>, h: Hash) {
    Eligible(w, h) && forall i :: 0 <= i < |orphans| && orphans[i].ptx == h ==> orphans[i].setDependsOn == {}
  }

  /** Each ready candidate is counted once, and nothing else is. */
  ghost predicate Accounted(w: World, orphans: seq<COrphan>, m: multiset<Hash>) {
    forall h :: m[h] == if Ready(w, orphans, h) then 1 else 0
  }

  ghost predicate AllRated(w: World, q: seq<TxPriority>)
    requires Closed(w)
  {
    forall e :: e in q ==> Rated(w, e)
  }

  function SetOf(s: seq<Hash>): set<Hash> {
    set x | x in s
  }

  lemma NothingLeft(a: set<Hash>, b: set<Hash>)
    ensures a - b == {} <==> a <= b
  {
    if a - b == {} {
      forall x | x in a ensures x in b { assert x !in a - b; }
    }
  }

  /** Ready means that every parent in the pool is done. */
  lemma ReadyParents(w: World, orphans: seq<COrphan>, dependers: map<Hash, seq<nat>>, done: set<Hash>, h: Hash)
    requires Closed(w) && Indexed(w, orphans, dependers, w.pool.Keys) && Waiting(w, orphans, done)
    ensures Ready(w, orphans, h) <==> Eligible(w, h) && Parents(w, h) <= done
  {
    if Eligible(w, h) {
      if Parents(w, h) != {} {
        assert IsOrphan(orphans, h);
        var i :| 0 <= i < |orphans| && orphans[i].ptx == h;
        NothingLeft(Parents(w, h), done);
      }
    }
  }

  // ---------------------------------------------------------------- the tests of the main loop

  function Min(a: int, b: int): int { if b < a then b else a }

  function Max(a: int, b: int): int { if a < b then b else a }

  function MaxSize(w: World): (n: int)
    ensures 1000 <= n <= MAX_BLOCK_SIZE - 1000
  {
    Max(1000, Min(MAX_BLOCK_SIZE - 1000, w.argMaxSize % UINT))
  }

  function PrioritySize(w: World): (n: int)
    ensures 0 <= n <= MaxSize(w)
  {
    Min(MaxSize(w), w.argPrioritySize % UINT)
  }

  function MinSize(w: World): (n: int)
    ensures 0 <= n <= MaxSize(w)
  {
    Min(MaxSize(w), w.argMinSize % UINT)
  }

  /** The options count where they are within their limits, and only their low 32 bits do. */
  lemma SizesAsGiven(w: World)
    ensures MaxSize(w) == MaxSize(w.(argMaxSize := w.argMaxSize + 4_294_967_296))
    ensures 1000 <= w.argMaxSize <= 839_000 ==> MaxSize(w) == w.argMaxSize
    ensures 0 <= w.argMaxSize < 1000 ==> MaxSize(w) == 1000
    ensures 839_000 < w.argMaxSize < 4_294_967_296 ==> MaxSize(w) == 839_000
    ensures 0 <= w.argPrioritySize < 4_294_967_296 ==>
      PrioritySize(w) == if w.argPrioritySize <= MaxSize(w) then w.argPrioritySize else MaxSize(w)
    ensures 0 <= w.argMinSize < 4_294_967_296 ==>
      MinSize(w) == if w.argMinSize <= MaxSize(w) then w.argMinSize else MaxSize(w)
  {
  }

  ghost predicate AllEligible(w: World, s: seq<Hash>) {
    forall i :: 0 <= i < |s| ==> Eligible(w, s[i])
  }

  /** Size of a block with these transactions, 1000 being set aside for the rest of it. */
  ghost function BlockSize(w: World, s: seq<Hash>): int
    requires AllEligible(w, s)
  {
    if s == [] then 1000 else BlockSize(w, s[..|s| - 1]) + w.pool[s[|s| - 1]].size
  }

  ghost function BlockSigOps(w: World, s: seq<Hash>): int
    requires AllEligible(w, s)
  {
    if s == [] then 100
    else
      var n := |s| - 1;
      BlockSigOps(w, s[..n]) + w.pool[s[n]].sigOps + w.p2sh(s[n], s[..n])
  }

  /** What h pays when it follows the transactions s. */
  ghost function FeeAfter(w: World, s: seq<Hash>, h: Hash): int
    requires Eligible(w, h)
  {
    w.valueIn(h, s) - ValueOut(w.pool[h].vout)
  }

  ghost function BlockFees(w: World, s: seq<Hash>): int
    requires AllEligible(w, s)
  {
    if s == [] then 0 else BlockFees(w, s[..|s| - 1]) + FeeAfter(w, s[..|s| - 1], s[|s| - 1])
  }

  /** The tests made before the order may change. */
  ghost predicate Fits(w: World, s: seq<Hash>, h: Hash, byFee: bool)
    requires Closed(w) && AllEligible(w, s) && Eligible(w, h)
  {
    && BlockSize(w, s) + w.pool[h].size < MaxSize(w)
    && BlockSigOps(w, s) + w.pool[h].sigOps < MAX_BLOCK_SIGOPS
    && w.pool[h].nTime <= w.nAdjustedTime && (w.fProofOfStake ==> w.pool[h].nTime <= w.nCoinbaseTime)
    && (byFee && FeePerKb(w, h) < w.nMinTxFee as real ==> BlockSize(w, s) + w.pool[h].size < MinSize(w))
  }

  /** The tests made after. */
  ghost predicate Pays(w: World, s: seq<Hash>, h: Hash)
    requires AllEligible(w, s) && Eligible(w, h)
  {
    && w.fetch(h, s)
    && FeeAfter(w, s, h) >= w.minFee(h, BlockSize(w, s))
    && BlockSigOps(w, s) + w.pool[h].sigOps + w.p2sh(h, s) < MAX_BLOCK_SIGOPS
    && w.connect(h, s)
  }

  ghost predicate Admissible(w: World, s: seq<Hash>, h: Hash, byFee: bool)
    requires Closed(w) && AllEligible(w, s) && Eligible(w, h)
  {
    Fits(w, s, h, byFee) && Pays(w, s, h)
  }

  /** h ends the ordering by priority: it reaches the size set aside for that, or its own priority is low. */
  ghost predicate EndsPriority(w: World, s: seq<Hash>, h: Hash)
    requires AllEligible(w, s) && Eligible(w, h)
  {
    BlockSize(w, s) + w.pool[h].size >= PrioritySize(w) || Priority(w, h) < (COIN * 144 / 250) as real
  }

  /** Whatever has parents in the pool comes after all of them. */
  ghost predicate ParentsFirst(w: World, vtx: seq<Hash>)
    requires AllEligible(w, vtx)
  {
    forall i :: 0 <= i < |vtx| ==> Parents(w, vtx[i]) <= SetOf(vtx[..i])
  }

  /** Distinct members of a set are no more than the set has. */
  lemma {:induction false} DistinctBound(s: seq<Hash>, all: set<Hash>)
    requires forall h :: multiset(s)[h] <= if h in all then 1 else 0
    ensures |s| <= |all|
  {
    if s != [] {
      var n := |s| - 1;
      var last := s[n];
      assert s == s[..n] + [last];
      assert multiset(s) == multiset(s[..n]) + multiset{last};
      assert multiset(s)[last] >= 1;
      forall h ensures multiset(s[..n])[h] <= if h in all - {last} then 1 else 0 {
        assert multiset(s)[h] <= if h in all then 1 else 0;
      }
      DistinctBound(s[..n], all - {last});
    }
  }
}
