/** The main loop of CreateNewBlock over a priority queue and the orphans waiting for it (src/miner.cpp). */
module Miner {

  import opened Ascending
  import opened BlockAssembler
  import opened BlockSchedule

  // ---------------------------------------------------------------- one orphan loses a parent

  /** Orphan i no longer waits for "parent". */
  function Erased(orphans: seq<COrphan>, i: nat, parent: Hash): seq<COrphan>
    requires i < |orphans|
  {
    orphans[i := orphans[i].(setDependsOn := orphans[i].setDependsOn - {parent})]
  }

  lemma IndexedErased(w: World, orphans: seq<COrphan>, dependers: map<Hash, seq<nat>>, seen: set<Hash>, i: nat,
                      parent: Hash)
    requires Closed(w) && Indexed(w, orphans, dependers, seen) && i < |orphans|
    ensures Indexed(w, Erased(orphans, i, parent), dependers, seen)
  {
    hide Closed, Rated, Parents, Depends;
    var o := Erased(orphans, i, parent);
    assert forall k :: 0 <= k < |o| ==> o[k].ptx == orphans[k].ptx && Entry(o[k]) == Entry(orphans[k]);
    forall h | h in seen && Eligible(w, h) && Parents(w, h) != {} ensures IsOrphan(o, h) {
      assert IsOrphan(orphans, h);
    }
  }

  /** Only the orphan itself can become ready, and it does when nothing is left to wait for. */
  lemma ReadyErased(w: World, orphans: seq<COrphan>, dependers: map<Hash, seq<nat>>, seen: set<Hash>, i: nat,
                    parent: Hash)
    requires Closed(w) && Indexed(w, orphans, dependers, seen) && i < |orphans| && orphans[i].setDependsOn != {}
    ensures forall h :: h != orphans[i].ptx ==> (Ready(w, Erased(orphans, i, parent), h) <==> Ready(w, orphans, h))
    ensures !Ready(w, orphans, orphans[i].ptx)
    ensures Ready(w, Erased(orphans, i, parent), orphans[i].ptx) <==> orphans[i].setDependsOn - {parent} == {}
  {
    hide Closed, Parents, Eligible, Depends;
    var o := Erased(orphans, i, parent);
    assert Rated(w, Entry(orphans[i]));
    assert forall k :: 0 <= k < |o| && k != i ==> o[k] == orphans[k];
    assert o[i].ptx == orphans[i].ptx;
    assert forall k :: 0 <= k < |o| && k != i ==> o[k].ptx != o[i].ptx;
  }

  /** What the orphans wait for while those listed under "parent" are being visited. */
  ghost predicate Visiting(w: World, orphans: seq<COrphan>, done: set<Hash>, parent: Hash, visited: seq<nat>) {
    forall i :: 0 <= i < |orphans| ==>
      orphans[i].ptx in w.pool &&
      orphans[i].setDependsOn == Parents(w, orphans[i].ptx) - done - if i in visited then {parent} else {}
  }

  lemma VisitStarts(w: World, orphans: seq<COrphan>, done: set<Hash>, parent: Hash)
    requires Waiting(w, orphans, done)
    ensures Visiting(w, orphans, done, parent, [])
  {
    hide Parents;
    forall i | 0 <= i < |orphans| ensures orphans[i].setDependsOn == Parents(w, orphans[i].ptx) - done - {} {
    }
  }

  lemma VisitErased(w: World, orphans: seq<COrphan>, done: set<Hash>, parent: Hash, visited: seq<nat>, i: nat)
    requires Visiting(w, orphans, done, parent, visited) && i < |orphans|
    ensures Visiting(w, Erased(orphans, i, parent), done, parent, visited + [i])
  {
    hide Parents;
    var o := Erased(orphans, i, parent);
    var v := visited + [i];
    assert forall k :: 0 <= k < |o| && k != i ==> o[k] == orphans[k] && (k in v <==> k in visited);
    assert i in v;
  }

  lemma VisitEmpty(w: World, orphans: seq<COrphan>, done: set<Hash>, parent: Hash, visited: seq<nat>, i: nat)
    requires Visiting(w, orphans, done, parent, visited) && i < |orphans| && orphans[i].setDependsOn == {}
    ensures Visiting(w, orphans, done, parent, visited + [i])
  {
    hide Parents;
    var v := visited + [i];
    assert orphans[i].setDependsOn - {parent} == orphans[i].setDependsOn;
    assert orphans == Erased(orphans, i, parent);
    VisitErased(w, orphans, done, parent, visited, i);
  }

  /** All that have the parent were visited, so it is done for every orphan. */
  lemma VisitEnds(w: World, orphans: seq<COrphan>, dependers: map<Hash, seq<nat>>, done: set<Hash>, parent: Hash,
                  visited: seq<nat>)
    requires Closed(w) && Indexed(w, orphans, dependers, w.pool.Keys) && Visiting(w, orphans, done, parent, visited)
    requires forall i :: 0 <= i < |orphans| && Depends(dependers, parent, i) ==> i in visited
    ensures Waiting(w, orphans, done + {parent})
  {
    hide Closed, Parents, Rated, Eligible, Depends;
    forall i | 0 <= i < |orphans| ensures orphans[i].setDependsOn == Parents(w, orphans[i].ptx) - (done + {parent}) {
      var own := Parents(w, orphans[i].ptx);
      assert Depends(dependers, parent, i) <==> parent in own;
      assert i in visited ==> orphans[i].setDependsOn == own - done - {parent};
      assert i !in visited ==> orphans[i].setDependsOn == own - done - {};
    }
  }

  lemma AccountedErased(w: World, orphans: seq<COrphan>, dependers: map<Hash, seq<nat>>, seen: set<Hash>, i: nat,
                        parent: Hash, m: multiset<Hash>)
    requires Closed(w) && Indexed(w, orphans, dependers, seen) && i < |orphans| && orphans[i].setDependsOn != {}
    requires Accounted(w, orphans, m)
    ensures Accounted(w, Erased(orphans, i, parent),
                      if orphans[i].setDependsOn - {parent} == {} then m + multiset{orphans[i].ptx} else m)
  {
    ReadyErased(w, orphans, dependers, seen, i, parent);
    hide Closed, Indexed, Ready;
  }

  // ---------------------------------------------------------------- gathering the candidates

  lemma ParentsStep(w: World, h: Hash, k: nat)
    requires h in w.pool && k < |w.pool[h].vin|
    ensures var p := w.pool[h].vin[k];
      ParentsUpTo(w, h, k + 1) == if p in w.chain then ParentsUpTo(w, h, k) else ParentsUpTo(w, h, k) + {p.hash}
  {
    var p := w.pool[h].vin[k];
    var more := if p in w.chain then ParentsUpTo(w, h, k) else ParentsUpTo(w, h, k) + {p.hash};
    forall x ensures x in ParentsUpTo(w, h, k + 1) <==> x in more {
      if x in more && x !in ParentsUpTo(w, h, k) { assert w.pool[h].vin[k].hash == x; }
    }
  }

  /** After k inputs of h, the orphans so far being o0 and their index d0: h is an orphan if a parent was among the
      inputs, listed once or more under each parent met. */
  ghost predicate Scanned(w: World, o0: seq<COrphan>, d0: map<Hash, seq<nat>>, h: Hash, k: nat, waiting: bool,
                          orphans: seq<COrphan>, dependers: map<Hash, seq<nat>>)
    requires h in w.pool && k <= |w.pool[h].vin|
  {
    var met := ParentsUpTo(w, h, k);
    && waiting == (met != {})
    && orphans == (if waiting then o0 + [COrphan(h, met, 0.0, 0.0)] else o0)
    && (forall p, i :: Depends(dependers, p, i) <==> Depends(d0, p, i) || (i == |o0| && p in met))
  }

  function Listed(dependers: map<Hash, seq<nat>>, p: Hash, i: nat): map<Hash, seq<nat>> {
    dependers[p := (if p in dependers then dependers[p] else []) + [i]]
  }

  lemma ListedDepends(dependers: map<Hash, seq<nat>>, p: Hash, i: nat, q: Hash, j: int)
    ensures Depends(Listed(dependers, p, i), q, j) <==> Depends(dependers, q, j) || (q == p && j == i)
  {
    var was := if p in dependers then dependers[p] else [];
    var now := Listed(dependers, p, i);
    if q == p {
      assert now[p] == was + [i];
      if j == i { assert now[p][|was|] == i; }
      if Depends(dependers, p, j) {
        var k :| 0 <= k < |was| && was[k] == j;
        assert now[p][k] == j;
      }
    }
  }

  lemma ScannedChain(w: World, o0: seq<COrphan>, d0: map<Hash, seq<nat>>, h: Hash, k: nat, waiting: bool,
                     orphans: seq<COrphan>, dependers: map<Hash, seq<nat>>)
    requires h in w.pool && k < |w.pool[h].vin| && w.pool[h].vin[k] in w.chain
    requires Scanned(w, o0, d0, h, k, waiting, orphans, dependers)
    ensures Scanned(w, o0, d0, h, k + 1, waiting, orphans, dependers)
  {
    hide ParentsUpTo, Depends;
    ParentsStep(w, h, k);
  }

  lemma ScannedPool(w: World, o0: seq<COrphan>, d0: map<Hash, seq<nat>>, h: Hash, k: nat, waiting: bool,
                    orphans: seq<COrphan>, dependers: map<Hash, seq<nat>>)
    requires h in w.pool && k < |w.pool[h].vin| && w.pool[h].vin[k] !in w.chain
    requires Scanned(w, o0, d0, h, k, waiting, orphans, dependers)
    ensures var p, n := w.pool[h].vin[k].hash, |o0|;
      var one := if waiting then orphans else orphans + [COrphan(h, {}, 0.0, 0.0)];
      |one| == n + 1 && Scanned(w, o0, d0, h, k + 1, true,
        one[n := one[n].(setDependsOn := one[n].setDependsOn + {p})], Listed(dependers, p, n))
  {
    hide ParentsUpTo, Depends;
    ParentsStep(w, h, k);
    var p := w.pool[h].vin[k].hash;
    assert p in ParentsUpTo(w, h, k + 1);
    forall q, j
      ensures Depends(Listed(dependers, p, |o0|), q, j) <==> Depends(dependers, q, j) || (q == p && j == |o0|)
    {
      ListedDepends(dependers, p, |o0|, q, j);
    }
  }

  /** Seen candidates without parents in the pool are on the queue, once each. */
  ghost predicate RootsQueued(w: World, q: seq<TxPriority>, seen: set<Hash>) {
    forall h :: multiset(Txs(q))[h] == if h in seen && Eligible(w, h) && Parents(w, h) == {} then 1 else 0
  }

  ghost predicate Gathered(w: World, orphans: seq<COrphan>, dependers: map<Hash, seq<nat>>, q: seq<TxPriority>,
                           seen: set<Hash>)
    requires Closed(w)
  {
    && Indexed(w, orphans, dependers, seen) && Waiting(w, orphans, {})
    && RootsQueued(w, q, seen) && AllRated(w, q)
  }

  lemma GatheredOther(w: World, orphans: seq<COrphan>, dependers: map<Hash, seq<nat>>, q: seq<TxPriority>,
                      seen: set<Hash>, h: Hash)
    requires Closed(w) && Gathered(w, orphans, dependers, q, seen) && !Eligible(w, h)
    ensures Gathered(w, orphans, dependers, q, seen + {h})
  {
    hide Closed, Parents, Depends, Rated, AllRated, Txs;
  }

  lemma GatheredRoot(w: World, o0: seq<COrphan>, d0: map<Hash, seq<nat>>, q: seq<TxPriority>, seen: set<Hash>, h: Hash,
                     orphans: seq<COrphan>, dependers: map<Hash, seq<nat>>)
    requires Closed(w) && Gathered(w, o0, d0, q, seen) && Eligible(w, h) && h !in seen
    requires Scanned(w, o0, d0, h, |w.pool[h].vin|, false, orphans, dependers)
    ensures Gathered(w, orphans, dependers, q + [TxPriority(Priority(w, h), FeePerKb(w, h), h)], seen + {h})
  {
    hide Closed, ParentsUpTo, Depends, Priority, FeePerKb;
    var e := TxPriority(Priority(w, h), FeePerKb(w, h), h);
    assert Txs(q + [e]) == Txs(q) + [h];
    assert Parents(w, h) == {};
    assert Rated(w, e);
  }

  lemma GatheredOrphan(w: World, o0: seq<COrphan>, d0: map<Hash, seq<nat>>, q: seq<TxPriority>, seen: set<Hash>,
                       h: Hash, orphans: seq<COrphan>, dependers: map<Hash, seq<nat>>)
    requires Closed(w) && Gathered(w, o0, d0, q, seen) && Eligible(w, h) && h !in seen
    requires Scanned(w, o0, d0, h, |w.pool[h].vin|, true, orphans, dependers)
    ensures |orphans| == |o0| + 1
    ensures var n := |o0|;
      Gathered(w, orphans[n := orphans[n].(dPriority := Priority(w, h), dFeePerKb := FeePerKb(w, h))], dependers, q,
        seen + {h})
  {
    hide Closed, ParentsUpTo, Depends, Priority, FeePerKb, Txs, AllRated;
    var n := |o0|;
    var o := orphans[n := orphans[n].(dPriority := Priority(w, h), dFeePerKb := FeePerKb(w, h))];
    assert Parents(w, h) == ParentsUpTo(w, h, |w.pool[h].vin|);
    assert forall i :: 0 <= i < n ==> o[i] == o0[i];
    assert o[n].ptx == h;
    forall x | x in seen + {h} && Eligible(w, x) && Parents(w, x) != {} ensures IsOrphan(o, x) {
      if x != h {
        assert IsOrphan(o0, x);
        var i :| 0 <= i < n && o0[i].ptx == x;
        assert o[i].ptx == x;
      }
    }
  }

  lemma AllGathered(w: World, orphans: seq<COrphan>, dependers: map<Hash, seq<nat>>, q: seq<TxPriority>)
    requires Closed(w) && Gathered(w, orphans, dependers, q, w.pool.Keys)
    ensures Accounted(w, orphans, multiset(Txs(q)))
  {
    hide Closed, Indexed, Waiting, Parents, Ready, Txs;
    forall h ensures multiset(Txs(q))[h] == if Ready(w, orphans, h) then 1 else 0 {
      ReadyParents(w, orphans, dependers, {}, h);
    }
  }

  class BlockAssembly {
    const w: World
    var vOrphan: seq<COrphan>
    var mapDependers: map<Hash, seq<nat>>    // positions in vOrphan
    var vecPriority: seq<TxPriority>
    var vtx: seq<Hash>                       // without the coinbase
    var nBlockSize: int
    var nBlockTx: int
    var nBlockSigOps: int
    var nFees: int
    var fSortedByFee: bool
    ghost var trace: seq<Turn>

    /** The transactions that had their turn and those on the queue, each as often as it is listed. */
    ghost function Counted(): multiset<Hash>
      reads this`trace, this`vecPriority
    {
      multiset(Settled(trace)) + multiset(Txs(vecPriority))
    }

    ghost predicate QueueValid()
      requires Closed(w)
      reads this`vOrphan, this`mapDependers, this`vecPriority
    {
      Indexed(w, vOrphan, mapDependers, w.pool.Keys) && AllRated(w, vecPriority)
    }

    constructor (world: World)
      ensures w == world && vOrphan == [] && mapDependers == map[] && vecPriority == [] && vtx == []
      ensures nBlockSize == 1000 && nBlockTx == 0 && nBlockSigOps == 100 && nFees == 0
      ensures fSortedByFee == (PrioritySize(w) <= 0) && trace == []
    {
      w := world;
      vOrphan, mapDependers, vecPriority, vtx := [], map[], [], [];
      nBlockSize, nBlockTx, nBlockSigOps, nFees := 1000, 0, 100, 0;
      fSortedByFee := PrioritySize(world) <= 0;
      trace := [];
    }

    /** Looks up the inputs of one candidate; it becomes an orphan at the first that is not on the chain. */
    method ScanInputs(h: Hash) returns (waiting: bool, dPriority: real, nTotalIn: int)
      requires Closed(w) && Eligible(w, h)
      modifies this`vOrphan, this`mapDependers
      ensures Scanned(w, old(vOrphan), old(mapDependers), h, |w.pool[h].vin|, waiting, vOrphan, mapDependers)
      ensures dPriority == CoinAge(w, h, |w.pool[h].vin|) && nTotalIn == TotalIn(w, h, |w.pool[h].vin|)
    {
      hide Scanned, ParentsUpTo, Depends;
      var vin := w.pool[h].vin;
      ghost var o0, d0 := vOrphan, mapDependers;
      waiting, dPriority, nTotalIn := false, 0.0, 0;
      ScanStarts(w, o0, d0, h);
      for k := 0 to |vin|
        invariant Scanned(w, o0, d0, h, k, waiting, vOrphan, mapDependers)
        invariant dPriority == CoinAge(w, h, k) && nTotalIn == TotalIn(w, h, k)
      {
        var prevout := vin[k];
        assert Found(w, prevout);
        if prevout !in w.chain {
          ScannedPool(w, o0, d0, h, k, waiting, vOrphan, mapDependers);
          if !waiting { vOrphan := vOrphan + [COrphan(h, {}, 0.0, 0.0)]; }
          waiting := true;
          var last := |vOrphan| - 1;
          mapDependers := Listed(mapDependers, prevout.hash, last);
          vOrphan := vOrphan[last := vOrphan[last].(setDependsOn := vOrphan[last].setDependsOn + {prevout.hash})];
          nTotalIn := nTotalIn + w.pool[prevout.hash].vout[prevout.n];
        } else {
          ScannedChain(w, o0, d0, h, k, waiting, vOrphan, mapDependers);
          nTotalIn := nTotalIn + w.chain[prevout].nValue;
          dPriority := dPriority + w.chain[prevout].nValue as real * w.chain[prevout].nConf as real;
        }
      }
    }

    /** One transaction of the pool. */
    method Gather(h: Hash, ghost seen: set<Hash>)
      requires Closed(w) && h in w.pool && h !in seen && Gathered(w, vOrphan, mapDependers, vecPriority, seen)
      modifies this`vOrphan, this`mapDependers, this`vecPriority
      ensures Gathered(w, vOrphan, mapDependers, vecPriority, seen + {h})
    {
      hide Closed, Gathered, Scanned, ParentsUpTo, TotalIn, CoinAge;
      var tx := w.pool[h];
      if tx.coinBase || tx.coinStake || !tx.final {
        GatheredOther(w, vOrphan, mapDependers, vecPriority, seen, h);
        return;
      }
      ghost var o0, d0 := vOrphan, mapDependers;
      var waiting, dPriority, nTotalIn := ScanInputs(h);
      dPriority := dPriority / tx.size as real;
      var dFeePerKb := (nTotalIn - ValueOut(tx.vout)) as real / (tx.size as real / 1000.0);
      if waiting {
        GatheredOrphan(w, o0, d0, vecPriority, seen, h, vOrphan, mapDependers);
        var last := |vOrphan| - 1;
        vOrphan := vOrphan[last := vOrphan[last].(dPriority := dPriority, dFeePerKb := dFeePerKb)];
      } else {
        GatheredRoot(w, o0, d0, vecPriority, seen, h, vOrphan, mapDependers);
        vecPriority := vecPriority + [TxPriority(dPriority, dFeePerKb, h)];
      }
    }

    /** Walks the pool in the order of its map. */
    method GatherPool()
      requires Closed(w) && vOrphan == [] && mapDependers == map[] && vecPriority == []
      modifies this`vOrphan, this`mapDependers, this`vecPriority
      ensures QueueValid() && Waiting(w, vOrphan, {}) && Accounted(w, vOrphan, multiset(Txs(vecPriority)))
    {
      hide Closed, Indexed, Waiting, RootsQueued, AllRated, Accounted, Txs;
      var order := Sequence(w.pool.Keys);
      GatherStarts(w);
      assert SetOf(order[..0]) == {};
      for k := 0 to |order|
        invariant Gathered(w, vOrphan, mapDependers, vecPriority, SetOf(order[..k]))
      {
        hide Gathered;
        OrderStep(order, w.pool.Keys, k);
        Gather(order[k], SetOf(order[..k]));
      }
      assert SetOf(order[..|order|]) == w.pool.Keys;
      AllGathered(w, vOrphan, mapDependers, vecPriority);
    }

    /** Takes a greatest element off the queue under the order in force. */
    method PopTop() returns (top: TxPriority)
      requires vecPriority != []
      modifies this`vecPriority
      ensures Popped(fSortedByFee, old(vecPriority), top, vecPriority)
    {
      TopExists(fSortedByFee, vecPriority);
      var k :| 0 <= k < |vecPriority| && IsTop(fSortedByFee, vecPriority, k);
      top := vecPriority[k];
      vecPriority := vecPriority[..k] + vecPriority[k + 1..];
    }

    /** One orphan waiting for "hash": the last of its parents puts it on the queue. */
    method ReleaseOne(i: nat, hash: Hash, ghost done: set<Hash>, ghost visited: seq<nat>, ghost others: multiset<Hash>)
      requires Closed(w) && i < |vOrphan| && QueueValid()
      requires Visiting(w, vOrphan, done, hash, visited)
      requires Accounted(w, vOrphan, others + multiset(Txs(vecPriority)))
      modifies this`vOrphan, this`vecPriority
      ensures |vOrphan| == old(|vOrphan|) && QueueValid()
      ensures Visiting(w, vOrphan, done, hash, visited + [i])
      ensures Accounted(w, vOrphan, others + multiset(Txs(vecPriority)))
    {
      hide Closed, Indexed, Visiting, Accounted, AllRated, Rated, Txs;
      if vOrphan[i].setDependsOn == {} {
        VisitEmpty(w, vOrphan, done, hash, visited, i);
        return;
      }
      VisitErased(w, vOrphan, done, hash, visited, i);
      IndexedErased(w, vOrphan, mapDependers, w.pool.Keys, i, hash);
      AccountedErased(w, vOrphan, mapDependers, w.pool.Keys, i, hash, others + multiset(Txs(vecPriority)));
      vOrphan := Erased(vOrphan, i, hash);
      if vOrphan[i].setDependsOn == {} {
        Queued(w, vOrphan, mapDependers, vecPriority, others, i);
        vecPriority := vecPriority + [Entry(vOrphan[i])];
      }
    }

    /** Everything that depends on an included transaction loses it as a parent. */
    method Release(hash: Hash, ghost done: set<Hash>, ghost others: multiset<Hash>)
      requires Closed(w) && QueueValid() && Waiting(w, vOrphan, done)
      requires Accounted(w, vOrphan, others + multiset(Txs(vecPriority)))
      modifies this`vOrphan, this`vecPriority
      ensures QueueValid() && Waiting(w, vOrphan, done + {hash})
      ensures Accounted(w, vOrphan, others + multiset(Txs(vecPriority)))
    {
      hide Closed, Indexed, Waiting, Visiting, Accounted, AllRated, Txs;
      VisitStarts(w, vOrphan, done, hash);
      ghost var visited: seq<nat> := [];
      if hash in mapDependers {
        var list := mapDependers[hash];
        for j := 0 to |list|
          invariant QueueValid() && |vOrphan| == old(|vOrphan|)
          invariant visited == list[..j] && Visiting(w, vOrphan, done, hash, visited)
          invariant Accounted(w, vOrphan, others + multiset(Txs(vecPriority)))
        {
          ListedIsOrphan(w, vOrphan, mapDependers, w.pool.Keys, hash, j);
          ReleaseOne(list[j], hash, done, visited, others);
          visited := visited + [list[j]];
        }
      }
      VisitEnds(w, vOrphan, mapDependers, done, hash, visited);
    }

    /** Sizes, signature operations and fees are those of the transactions included. */
    ghost predicate Summed()
      reads this`vtx, this`nBlockSize, this`nBlockTx, this`nBlockSigOps, this`nFees
    {
      && AllEligible(w, vtx) && nBlockTx == |vtx|
      && nBlockSize == BlockSize(w, vtx) && nBlockSigOps == BlockSigOps(w, vtx) && nFees == BlockFees(w, vtx)
    }

    /** The turns so far, the block they made and the order they left. */
    ghost predicate Recorded()
      requires Closed(w)
      reads this`vtx, this`fSortedByFee, this`trace
    {
      Played(w, trace) && vtx == Included(trace) && fSortedByFee == OrderAfter(w, trace)
    }

    ghost predicate Scheduled()
      requires Closed(w)
      reads this`vOrphan, this`mapDependers, this`vecPriority, this`vtx, this`trace
    {
      QueueValid() && Waiting(w, vOrphan, SetOf(vtx)) && Accounted(w, vOrphan, Counted())
    }

    /** The tests on the transaction taken off the queue, which may change the order. */
    method Consider(top: TxPriority) returns (ok: bool, nTxFees: int, nTxSigOps: int)
      requires Closed(w) && Summed() && Rated(w, top)
      modifies this`fSortedByFee
      ensures AllEligible(w, vtx) && ok == Admissible(w, vtx, top.tx, old(fSortedByFee))
      ensures fSortedByFee == (old(fSortedByFee)
                               || (Fits(w, vtx, top.tx, old(fSortedByFee)) && EndsPriority(w, vtx, top.tx)))
      ensures ok ==> nTxFees == FeeAfter(w, vtx, top.tx) && nTxSigOps == w.pool[top.tx].sigOps + w.p2sh(top.tx, vtx)
    {
      hide Closed, Priority, FeePerKb, ValueOut;
      var h := top.tx;
      var tx := w.pool[h];
      nTxFees, nTxSigOps := 0, 0;
      if nBlockSize + tx.size >= MaxSize(w) { return false, nTxFees, nTxSigOps; }
      nTxSigOps := tx.sigOps;
      if nBlockSigOps + nTxSigOps >= MAX_BLOCK_SIGOPS { return false, nTxFees, nTxSigOps; }
      if tx.nTime > w.nAdjustedTime || (w.fProofOfStake && tx.nTime > w.nCoinbaseTime) {
        return false, nTxFees, nTxSigOps;
      }
      var nMinFee := w.minFee(h, nBlockSize);
      if fSortedByFee && top.dFeePerKb < w.nMinTxFee as real && nBlockSize + tx.size >= MinSize(w) {
        return false, nTxFees, nTxSigOps;
      }
      if !fSortedByFee && (nBlockSize + tx.size >= PrioritySize(w) || top.dPriority < (COIN * 144 / 250) as real) {
        fSortedByFee := true;
      }
      if !w.fetch(h, vtx) { return false, nTxFees, nTxSigOps; }
      nTxFees := w.valueIn(h, vtx) - ValueOut(tx.vout);
      if nTxFees < nMinFee { return false, nTxFees, nTxSigOps; }
      nTxSigOps := nTxSigOps + w.p2sh(h, vtx);
      if nBlockSigOps + nTxSigOps >= MAX_BLOCK_SIGOPS { return false, nTxFees, nTxSigOps; }
      if !w.connect(h, vtx) { return false, nTxFees, nTxSigOps; }
      ok := true;
    }

    /** Pops a contender that no other one beats. */
    method TakeTop() returns (top: TxPriority)
      requires Closed(w) && Recorded() && Scheduled() && vecPriority != []
      modifies this`vecPriority
      ensures QueueValid() && Waiting(w, vOrphan, SetOf(vtx)) && Accounted(w, vOrphan, Counted() + multiset{top.tx})
      ensures Rated(w, top) && Eligible(w, top.tx)
      ensures Contender(w, trace, top.tx) && Unbeaten(w, trace, fSortedByFee, top.tx)
    {
      hide Closed, Indexed, Waiting, Accounted, AllRated, Popped, Rated, Txs, SetOf, Contender, Unbeaten, Played,
        OrderAfter;
      ghost var q := vecPriority;
      top := PopTop();
      PoppedRated(w, fSortedByFee, q, top, vecPriority);
      PoppedCounts(fSortedByFee, q, top, vecPriority);
      assert multiset(Settled(trace)) + multiset(Txs(q)) == Counted() + multiset{top.tx};
      TopUnbeaten(w, vOrphan, mapDependers, trace, fSortedByFee, q, top, vecPriority);
    }

    /** An admissible transaction joins the block. */
    method Include(h: Hash, nTxFees: int, nTxSigOps: int)
      requires Summed() && Eligible(w, h)
      requires nTxFees == FeeAfter(w, vtx, h) && nTxSigOps == w.pool[h].sigOps + w.p2sh(h, vtx)
      modifies this`vtx, this`nBlockSize, this`nBlockTx, this`nBlockSigOps, this`nFees
      ensures vtx == old(vtx) + [h] && Summed()
    {
      hide FeeAfter;
      ghost var s := vtx;
      vtx := vtx + [h];
      nBlockSize := nBlockSize + w.pool[h].size;
      nBlockTx := nBlockTx + 1;
      nBlockSigOps := nBlockSigOps + nTxSigOps;
      nFees := nFees + nTxFees;
      assert vtx[..|vtx| - 1] == s;
    }

    /** Each pool transaction has at most one turn. */
    lemma StillBounded()
      requires Closed(w) && Scheduled() && vecPriority != []
      ensures |trace| < |w.pool|
    {
      hide Closed, Parents, Indexed, Waiting;
      var s := Settled(trace) + [vecPriority[0].tx];
      assert Txs(vecPriority) == [vecPriority[0].tx] + Txs(vecPriority)[1..];
      assert multiset(s) <= Counted();
      forall h ensures multiset(s)[h] <= if h in w.pool.Keys then 1 else 0 {
        assert multiset(s)[h] <= Counted()[h];
      }
      DistinctBound(s, w.pool.Keys);
    }

    /** With the queue empty no contender is left. */
    lemma AllTaken()
      requires Closed(w) && Recorded() && Scheduled() && vecPriority == []
      ensures Complete(w, vtx, Refused(trace)) && forall h :: !Contender(w, trace, h)
    {
      hide Closed, Indexed, Waiting, Parents, Ready, SetOf, Played, OrderAfter;
      assert Txs(vecPriority) == [];
      SplitCounts(trace);
      forall h ensures multiset(Settled(trace))[h] == if Eligible(w, h) && Parents(w, h) <= SetOf(vtx) then 1 else 0 {
        assert multiset(Settled(trace))[h] == Counted()[h];
        ReadyParents(w, vOrphan, mapDependers, SetOf(vtx), h);
      }
    }

    /** One turn of the main loop. */
    method Step()
      requires Closed(w) && Summed() && Recorded() && Scheduled() && vecPriority != []
      modifies this`vOrphan, this`vecPriority, this`vtx, this`nBlockSize, this`nBlockTx, this`nBlockSigOps, this`nFees,
               this`fSortedByFee, this`trace
      ensures Summed() && Recorded() && Scheduled()
      ensures |trace| == |old(trace)| + 1 && old(trace) <= trace
    {
      hide Summed, Played, OrderAfter, Included, Settled, AllEligible, QueueValid, Waiting, Accounted, Eligible,
        Contender, Unbeaten, Admissible, Fits, EndsPriority, FeeAfter, Txs, SetOf, Rated, Closed;
      ghost var past, was := trace, fSortedByFee;
      var top := TakeTop();
      var ok, nTxFees, nTxSigOps := Consider(top);
      ghost var turn := Turn(top.tx, was, ok);
      NextTurn(w, past, vtx, turn, fSortedByFee);
      CountsMove(w, vOrphan, past, turn, multiset(Txs(vecPriority)));
      ghost var s := vtx;
      if ok {
        Include(top.tx, nTxFees, nTxSigOps);
        Release(top.tx, SetOf(s), multiset(Settled(past + [turn])));
        OneMore(s, top.tx);
      }
      trace := past + [turn];
    }
  }

  /** The block and the refusals make up, without repetition, exactly the candidates whose pool parents are all in the
      block. */
  ghost predicate Complete(w: World, vtx: seq<Hash>, refused: seq<Hash>) {
    forall h :: multiset(vtx)[h] + multiset(refused)[h] ==
      if Eligible(w, h) && Parents(w, h) <= SetOf(vtx) then 1 else 0
  }

  /** Chooses the transactions of a block and adds up their sizes, signature operations and fees. The ghost result lists
      the turns of the loop: each took an unbeaten contender under the order that the turns before had left, and
      included it exactly if it passed, until there was no contender any more. */
  method CreateNewBlock(w: World)
    returns (vtx: seq<Hash>, nBlockSize: int, nBlockTx: int, nBlockSigOps: int, nFees: int, ghost trace: seq<Turn>)
    requires Closed(w)
    ensures AllEligible(w, vtx) && nBlockTx == |vtx|
    ensures nBlockSize == BlockSize(w, vtx) && nBlockSigOps == BlockSigOps(w, vtx) && nFees == BlockFees(w, vtx)
    ensures vtx == [] ==> nBlockSize == 1000 && nBlockSigOps == 100 && nFees == 0
    ensures Played(w, trace) && vtx == Included(trace) && forall h :: !Contender(w, trace, h)
    ensures ParentsFirst(w, vtx)
    ensures Complete(w, vtx, Refused(trace))
  {
    hide Closed, Waiting, Accounted, Played, OrderAfter, Included, ParentsFirst, Parents, Complete, Contender, Indexed,
      AllRated;
    var a := new BlockAssembly(w);
    a.GatherPool();
    LoopStarts(w);
    assert a.Counted() == multiset(Txs(a.vecPriority));
    assert a.Summed() && a.Recorded() && a.Scheduled();
    while a.vecPriority != []
      invariant fresh(a) && a.w == w && a.Summed() && a.Recorded() && a.Scheduled()
      decreases |w.pool| - |a.trace|
    {
      hide BlockAssembly.Summed, BlockAssembly.Recorded, BlockAssembly.Scheduled;
      a.StillBounded();
      a.Step();
    }
    a.AllTaken();
    ParentsIncluded(w, a.trace);
    vtx, nBlockSize, nBlockTx, nBlockSigOps := a.vtx, a.nBlockSize, a.nBlockTx, a.nBlockSigOps;
    nFees, trace := a.nFees, a.trace;
  }

  lemma LoopStarts(w: World)
    requires Closed(w)
    ensures AllEligible(w, []) && Played(w, []) && Included([]) == [] && (OrderAfter(w, []) <==> PrioritySize(w) <= 0)
    ensures SetOf([]) == {} && Settled([]) == []
  {
  }

  /** The turn taken continues the run, and the order it leaves is the one in force. */
  lemma NextTurn(w: World, past: seq<Turn>, vtx: seq<Hash>, turn: Turn, fSortedByFee: bool)
    requires Closed(w) && Played(w, past) && vtx == Included(past) && AllEligible(w, vtx) && Eligible(w, turn.tx)
    requires Contender(w, past, turn.tx) && turn.byFee == OrderAfter(w, past) && Unbeaten(w, past, turn.byFee, turn.tx)
    requires turn.included == Admissible(w, vtx, turn.tx, turn.byFee)
    requires fSortedByFee == (turn.byFee || (Fits(w, vtx, turn.tx, turn.byFee) && EndsPriority(w, vtx, turn.tx)))
    ensures Played(w, past + [turn]) && fSortedByFee == OrderAfter(w, past + [turn])
    ensures Included(past + [turn]) == if turn.included then vtx + [turn.tx] else vtx
  {
    hide Closed, Contender, Unbeaten, Admissible, Fits, EndsPriority, OrderAfter, Included;
    PlayedNext(w, past, turn);
    OrderNext(w, past, turn);
    TurnAppended(past, turn);
  }

  lemma PoppedRated(w: World, byFee: bool, q: seq<TxPriority>, top: TxPriority, rest: seq<TxPriority>)
    requires Closed(w) && AllRated(w, q) && Popped(byFee, q, top, rest)
    ensures AllRated(w, rest) && Rated(w, top) && Eligible(w, top.tx)
  {
    PoppedCounts(byFee, q, top, rest);
    hide Closed, Priority, FeePerKb, Popped;
  }

  /** Every contender is on the queue, so what tops the queue beats none of them to nothing. */
  lemma TopUnbeaten(w: World, orphans: seq<COrphan>, dependers: map<Hash, seq<nat>>, trace: seq<Turn>, byFee: bool,
                    q: seq<TxPriority>, top: TxPriority, rest: seq<TxPriority>)
    requires Closed(w) && Indexed(w, orphans, dependers, w.pool.Keys) && Waiting(w, orphans, SetOf(Included(trace)))
    requires Accounted(w, orphans, multiset(Settled(trace)) + multiset(Txs(q)))
    requires AllRated(w, q) && Popped(byFee, q, top, rest) && Rated(w, top)
    ensures Contender(w, trace, top.tx) && Unbeaten(w, trace, byFee, top.tx)
  {
    hide Closed, Indexed, Waiting, SetOf, Parents, Included, Priority, FeePerKb, Ready, Popped;
    PoppedCounts(byFee, q, top, rest);
    QueuedContender(w, orphans, dependers, trace, q, top.tx);
    forall h | Contender(w, trace, h) ensures !Less(byFee, Ranked(w, top.tx), Ranked(w, h)) {
      QueuedContender(w, orphans, dependers, trace, q, h);
      ContenderEntry(w, q, h);
      PoppedBeats(byFee, q, top, rest, Ranked(w, h));
    }
  }

  /** The queue holds exactly the contenders. */
  lemma QueuedContender(w: World, orphans: seq<COrphan>, dependers: map<Hash, seq<nat>>, trace: seq<Turn>,
                        q: seq<TxPriority>, h: Hash)
    requires Closed(w) && Indexed(w, orphans, dependers, w.pool.Keys) && Waiting(w, orphans, SetOf(Included(trace)))
    requires Accounted(w, orphans, multiset(Settled(trace)) + multiset(Txs(q)))
    ensures Contender(w, trace, h) <==> h in Txs(q)
  {
    hide Closed, Indexed, Waiting, SetOf, Parents, Included, Ready, Txs, Settled;
    ReadyParents(w, orphans, dependers, SetOf(Included(trace)), h);
    var a, b := multiset(Settled(trace)), multiset(Txs(q));
    assert (a + b)[h] == a[h] + b[h];
    assert h in Settled(trace) <==> a[h] > 0;
    assert h in Txs(q) <==> b[h] > 0;
  }

  lemma ContenderEntry(w: World, q: seq<TxPriority>, h: Hash)
    requires Closed(w) && AllRated(w, q) && h in Txs(q)
    ensures Eligible(w, h) && Ranked(w, h) in q
  {
    hide Closed, Priority, FeePerKb;
    var s := Txs(q);
    var k :| 0 <= k < |s| && s[k] == h;
    var e := q[k];
    assert e in q;
  }

  lemma PoppedBeats(byFee: bool, q: seq<TxPriority>, top: TxPriority, rest: seq<TxPriority>, e: TxPriority)
    requires Popped(byFee, q, top, rest) && e in q
    ensures !Less(byFee, top, e)
  {
    hide Less;
  }

  lemma CountsMove(w: World, orphans: seq<COrphan>, past: seq<Turn>, turn: Turn, q: multiset<Hash>)
    requires Accounted(w, orphans, multiset(Settled(past)) + q + multiset{turn.tx})
    ensures Accounted(w, orphans, multiset(Settled(past + [turn])) + q)
  {
    TurnAppended(past, turn);
    assert multiset(Settled(past + [turn])) + q == multiset(Settled(past)) + q + multiset{turn.tx};
  }

  lemma OneMore(s: seq<Hash>, h: Hash)
    ensures SetOf(s + [h]) == SetOf(s) + {h}
  {
  }

  /** A ready orphan is put on the queue. */
  lemma Queued(w: World, orphans: seq<COrphan>, dependers: map<Hash, seq<nat>>, q: seq<TxPriority>,
               others: multiset<Hash>, i: nat)
    requires Closed(w) && Indexed(w, orphans, dependers, w.pool.Keys) && AllRated(w, q) && i < |orphans|
    ensures AllRated(w, q + [Entry(orphans[i])])
    ensures others + multiset(Txs(q + [Entry(orphans[i])])) == others + multiset(Txs(q)) + multiset{orphans[i].ptx}
  {
    hide Closed;
    assert Rated(w, Entry(orphans[i]));
    assert Txs(q + [Entry(orphans[i])]) == Txs(q) + [orphans[i].ptx];
  }

  lemma ListedIsOrphan(w: World, orphans: seq<COrphan>, dependers: map<Hash, seq<nat>>, seen: set<Hash>, p: Hash,
                       j: nat)
    requires Closed(w) && Indexed(w, orphans, dependers, seen) && p in dependers && j < |dependers[p]|
    ensures dependers[p][j] < |orphans|
  {
    assert Depends(dependers, p, dependers[p][j]);
  }

  lemma ScanStarts(w: World, orphans: seq<COrphan>, dependers: map<Hash, seq<nat>>, h: Hash)
    requires h in w.pool
    ensures Scanned(w, orphans, dependers, h, 0, false, orphans, dependers)
  {
    hide Depends;
    assert ParentsUpTo(w, h, 0) == {};
  }

  lemma GatherStarts(w: World)
    requires Closed(w)
    ensures Gathered(w, [], map[], [], {})
  {
    assert Txs([]) == [];
  }

  lemma OrderStep(order: seq<Hash>, keys: set<Hash>, k: nat)
    requires Lists(order, keys) && k < |order|
    ensures order[k] in keys && order[k] !in SetOf(order[..k])
    ensures SetOf(order[..k + 1]) == SetOf(order[..k]) + {order[k]}
  {
    assert order[..k + 1] == order[..k] + [order[k]];
    var x := order[k];
    assert x in order;
  }

  // ---------------------------------------------------------------- what a finished block is

  /** No transaction is in the block twice, and none is both included and refused. */
  lemma NoDuplicates(w: World, vtx: seq<Hash>, refused: seq<Hash>, i: nat, j: nat)
    requires Complete(w, vtx, refused) && i < j < |vtx|
    ensures vtx[i] != vtx[j] && vtx[i] !in refused
  {
    var a, b, r := vtx[i], vtx[j], multiset(refused);
    assert vtx == vtx[..i] + [a] + (vtx[i + 1..j] + [b] + vtx[j + 1..]);
    assert multiset(vtx)[a] + r[a] <= 1 && multiset(vtx)[b] + r[b] <= 1;
    assert multiset(vtx) ==
      multiset(vtx[..i]) + multiset{a} + (multiset(vtx[i + 1..j]) + multiset{b} + multiset(vtx[j + 1..]));
    assert r[a] == 0;
  }

  lemma AllInSequence(a: set<Hash>, s: seq<Hash>)
    ensures a <= SetOf(s) <==> forall p :: p in a ==> p in s
  {
    var r := SetOf(s);
    if a <= r {
      forall p | p in a ensures p in s { assert p in r; }
    } else {
      NothingLeft(a, r);
      assert |a - r| > 0;
      SomeElement(a - r);
      var p :| p in a - r;
      assert p in a && p !in s;
    }
  }

  /** A candidate left out was refused at its turn or waits for a pool parent that was left out. */
  lemma LeftOutForAReason(w: World, vtx: seq<Hash>, refused: seq<Hash>, h: Hash)
    requires Complete(w, vtx, refused) && Eligible(w, h) && h !in vtx
    ensures h in refused || exists p :: p in Parents(w, h) && p !in vtx
  {
    hide Parents;
    if h !in refused {
      assert multiset(vtx)[h] == 0 && multiset(refused)[h] == 0;
      assert !(Parents(w, h) <= SetOf(vtx));
      AllInSequence(Parents(w, h), vtx);
    }
  }

  /** Every input of an included transaction is on the chain or an output of a transaction before it. */
  lemma InputsAvailable(w: World, vtx: seq<Hash>, i: nat, k: nat)
    requires Closed(w) && AllEligible(w, vtx) && ParentsFirst(w, vtx) && i < |vtx| && k < |w.pool[vtx[i]].vin|
    ensures var p := w.pool[vtx[i]].vin[k];
      p in w.chain || (p.hash in vtx[..i] && p.hash in w.pool && p.n < |w.pool[p.hash].vout|)
  {
    var p := w.pool[vtx[i]].vin[k];
    assert Found(w, p);
    if p !in w.chain {
      assert p.hash in Parents(w, vtx[i]);
      assert p.hash in SetOf(vtx[..i]);
    }
  }

  /** A block with any transaction at all stays below both limits. */
  lemma WithinLimits(w: World, trace: seq<Turn>)
    requires Closed(w) && Played(w, trace) && Included(trace) != []
    ensures AllEligible(w, Included(trace))
    ensures BlockSize(w, Included(trace)) < MaxSize(w) <= MAX_BLOCK_SIZE - 1000
    ensures BlockSigOps(w, Included(trace)) < MAX_BLOCK_SIGOPS
  {
    hide Closed, Played, Included, MaxSize;
    var vtx := Included(trace);
    var k := AdmittedAt(w, trace, |vtx| - 1);
    assert vtx[..|vtx|] == vtx;
    PlayedEligible(w, trace);
  }

  lemma PlayedEligible(w: World, trace: seq<Turn>)
    requires Closed(w) && Played(w, trace)
    ensures AllTurnsEligible(w, trace) && AllEligible(w, Included(trace))
  {
    hide Closed, Eligible, TurnOk, Included;
    IncludedEligible(w, trace);
  }

  lemma {:induction false} SizeGrows(w: World, trace: seq<Turn>, k: nat)
    requires Closed(w) && Played(w, trace) && k <= |trace|
    ensures AllEligible(w, Included(trace)) && AllEligible(w, Included(trace[..k]))
    ensures BlockSize(w, Included(trace[..k])) <= BlockSize(w, Included(trace))
    decreases |trace|
  {
    hide Closed, TurnOk;
    PlayedEligible(w, trace);
    IncludedEligible(w, trace[..k]);
    var n := |trace| - 1;
    if k <= n {
      PrefixPlayed(w, trace, n);
      SizeGrows(w, trace[..n], k);
      assert trace[..n][..k] == trace[..k];
      var s := Included(trace[..n]);
      assert Included(trace) == if trace[n].included then s + [trace[n].tx] else s;
      assert (s + [trace[n].tx])[..|s|] == s;
    } else {
      assert trace[..k] == trace;
    }
  }

  /** A transaction that was too large at its turn would not fit into the finished block either. */
  lemma StillTooLarge(w: World, trace: seq<Turn>, k: nat)
    requires Closed(w) && Played(w, trace) && k < |trace|
    ensures AllEligible(w, Included(trace)) && AllEligible(w, Included(trace[..k])) && Eligible(w, trace[k].tx)
    ensures BlockSize(w, Included(trace[..k])) + w.pool[trace[k].tx].size >= MaxSize(w) ==>
      BlockSize(w, Included(trace)) + w.pool[trace[k].tx].size >= MaxSize(w)
  {
    hide Closed, TurnOk, MaxSize;
    SizeGrows(w, trace, k);
  }

  /** Once the size set aside for high priority is reached, a transaction pays the least rate unless the block is still
      below its minimum size. */
  lemma PaidOrBelowMinimum(w: World, trace: seq<Turn>, i: nat, j: nat)
    requires Closed(w) && Played(w, trace) && i < j < |Included(trace)|
    ensures AllEligible(w, Included(trace))
    ensures BlockSize(w, Included(trace)[..i + 1]) >= PrioritySize(w) ==>
      FeePerKb(w, Included(trace)[j]) >= w.nMinTxFee as real || BlockSize(w, Included(trace)[..j + 1]) < MinSize(w)
  {
    hide Closed, Played, Included, Pays, FeePerKb, Priority, MinSize, PrioritySize, MaxSize;
    PlayedEligible(w, trace);
    var vtx := Included(trace);
    var k := AdmittedAt(w, trace, i);
    var m := AdmittedAt(w, trace, j);
    assert vtx[..i + 1][..i] == vtx[..i] && vtx[..j + 1][..j] == vtx[..j];
    if m <= k { IncludedGrows(trace, m + 1, k + 1); }
    if BlockSize(w, vtx[..i + 1]) >= PrioritySize(w) { SwitchedAfter(w, trace, k, m); }
  }

  lemma SwitchedAfter(w: World, trace: seq<Turn>, k: nat, m: nat)
    requires Closed(w) && Played(w, trace) && k < m < |trace| && AllEligible(w, Included(trace[..k]))
    requires Admissible(w, Included(trace[..k]), trace[k].tx, trace[k].byFee)
    requires EndsPriority(w, Included(trace[..k]), trace[k].tx)
    ensures trace[m].byFee
  {
    hide Closed, Pays, EndsPriority, Fits, TurnOk;
    assert trace[..k + 1] == trace[..k] + [trace[k]];
    OrderNext(w, trace[..k], trace[k]);
    OrderStays(w, trace, k, m);
  }
}
