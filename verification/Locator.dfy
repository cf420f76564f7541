/** The block locator of src/main.h: exponentially sparser hashes of a chain, newest first. */
module Locator {

  import opened PowersOfTwo

  type Hash = nat

  /** A chain of block hashes by height; following pprev goes down one height, and -1 is past the first block. */
  type Chain = seq<Hash>

  /** How far below the start the entry j lies: every block at first, then steps that double. */
  function Depth(j: nat): nat {
    if j <= 11 then j else 9 + Pow2(j - 10)
  }

  /** The step from entry j to entry j + 1. */
  function StepAfter(j: nat): nat {
    if j <= 10 then 1 else Pow2(j - 10)
  }

  lemma DepthNext(j: nat)
    ensures Depth(j + 1) == Depth(j) + StepAfter(j) && StepAfter(j) >= 1
  {
    if j == 11 { assert Pow2(2) == 2 * Pow2(1) && Pow2(1) == 2; }
  }

  lemma {:induction false} DepthGrows(i: nat, j: nat)
    requires i <= j
    ensures Depth(i) + (j - i) <= Depth(j)
    decreases j - i
  {
    if i < j {
      DepthNext(i);
      DepthGrows(i + 1, j);
    }
  }

  /** The first entry number whose depth is below the chain that starts at height h. */
  function Count(h: int): nat
  {
    CountFrom(h, 0)
  }

  function CountFrom(h: int, j: nat): (k: nat)
    ensures k >= j && Depth(k) > h && (k == j || Depth(k - 1) <= h)
    decreases if Depth(j) <= h then h - Depth(j) + 1 else 0
  {
    DepthNext(j);
    if Depth(j) <= h then CountFrom(h, j + 1) else j
  }

  lemma CountIs(h: int, k: nat)
    requires Depth(k) > h && (k == 0 || Depth(k - 1) <= h)
    ensures Count(h) == k
  {
    hide CountFrom, Depth;
    var c := Count(h);
    if c < k { DepthGrows(c, k - 1); }
    if k < c { DepthGrows(k, c - 1); }
  }

  /** What Set records for a chain from height h: the blocks at the depths of the schedule, then the
      genesis block. */
  ghost predicate Recorded(vHave: seq<Hash>, chain: Chain, h: int, genesis: Hash) {
    && -1 <= h < |chain|
    && |vHave| == Count(h) + 1 && vHave[|vHave| - 1] == genesis
    && (forall j :: 0 <= j < |vHave| - 1 ==> Depth(j) <= h && vHave[j] == chain[h - Depth(j)])
  }

  class CBlockLocator {
    var vHave: seq<Hash>

    constructor ()
      ensures vHave == []
    {
      vHave := [];
    }

    method Set(chain: Chain, pindexIn: int, genesis: Hash)
      requires -1 <= pindexIn < |chain|
      modifies this
      ensures Recorded(vHave, chain, pindexIn, genesis)
    {
      vHave := [];
      var nStep := 1;
      var pindex := pindexIn;
      while pindex != -1
        invariant -1 <= pindex <= pindexIn
        invariant pindex == if Depth(|vHave|) <= pindexIn then pindexIn - Depth(|vHave|) else -1
        invariant pindex != -1 ==> nStep == StepAfter(|vHave|)
        invariant |vHave| == 0 || Depth(|vHave| - 1) <= pindexIn
        invariant forall j :: 0 <= j < |vHave| ==> Depth(j) <= pindexIn && vHave[j] == chain[pindexIn - Depth(j)]
        decreases pindex
      {
        ghost var j, before := |vHave|, pindex;
        vHave := vHave + [chain[pindex]];
        var i := 0;
        while pindex != -1 && i < nStep
          invariant 0 <= i <= nStep && -1 <= pindex
          invariant pindex == if i <= before then before - i else -1
          invariant i > 0 ==> pindex < before
        {
          pindex := pindex - 1;
          i := i + 1;
        }
        DepthNext(j);
        if |vHave| > 10 {
          nStep := nStep * 2;
        }
      }
      CountIs(pindexIn, |vHave|);
      vHave := vHave + [genesis];
    }

    /** The retraced distance to the first entry that this node has in its main chain. */
    method GetDistanceBack(inMain: Hash -> bool) returns (nDistance: int)
      ensures nDistance == Depth(FirstKnown(vHave, inMain))
    {
      nDistance := 0;
      var nStep := 1;
      var k := 0;
      while k < |vHave|
        invariant 0 <= k <= |vHave|
        invariant nDistance == Depth(k) && nStep == StepAfter(k)
        invariant forall j :: 0 <= j < k ==> !inMain(vHave[j])
      {
        if inMain(vHave[k]) {
          FirstKnownIs(vHave, inMain, k);
          return;
        }
        DepthNext(k);
        nDistance := nDistance + nStep;
        if nDistance > 10 {
          nStep := nStep * 2;
        }
        k := k + 1;
      }
      FirstKnownIs(vHave, inMain, k);
    }

    /** The first entry that this node has in its main chain, or else its genesis block. */
    method GetBlockIndex(inMain: Hash -> bool, genesis: Hash) returns (found: Hash)
      ensures var k := FirstKnown(vHave, inMain); found == if k < |vHave| then vHave[k] else genesis
    {
      var k := 0;
      while k < |vHave|
        invariant 0 <= k <= |vHave|
        invariant forall j :: 0 <= j < k ==> !inMain(vHave[j])
      {
        if inMain(vHave[k]) {
          FirstKnownIs(vHave, inMain, k);
          return vHave[k];
        }
        k := k + 1;
      }
      FirstKnownIs(vHave, inMain, k);
      return genesis;
    }
  }

  /** The place of the first entry in the main chain, or the length if there is none. */
  function FirstKnown(vHave: seq<Hash>, inMain: Hash -> bool): (k: nat)
    ensures k <= |vHave| && (k < |vHave| ==> inMain(vHave[k])) && forall j :: 0 <= j < k ==> !inMain(vHave[j])
  {
    if vHave == [] || inMain(vHave[0]) then 0
    else
      var k := FirstKnown(vHave[1..], inMain);
      assert forall j :: 0 <= j < k + 1 ==> vHave[j] == if j == 0 then vHave[0] else vHave[1..][j - 1];
      k + 1
  }

  lemma FirstKnownIs(vHave: seq<Hash>, inMain: Hash -> bool, k: nat)
    requires k <= |vHave| && (k < |vHave| ==> inMain(vHave[k])) && forall j :: 0 <= j < k ==> !inMain(vHave[j])
    ensures FirstKnown(vHave, inMain) == k
  {
  }

  /** The fork: this node has the sender's blocks up to d below its tip in the main chain, and none above. */
  ghost predicate ForksAt(chain: Chain, h: int, d: nat, inMain: Hash -> bool) {
    && 0 <= d <= h < |chain|
    && (forall x :: 0 <= x <= h - d ==> inMain(chain[x]))
    && (forall x :: h - d < x <= h ==> !inMain(chain[x]))
  }

  /** The depth at which the first common entry lies. */
  function FoundDepth(vHave: seq<Hash>, h: int, inMain: Hash -> bool): int {
    var k := FirstKnown(vHave, inMain);
    if k < |vHave| - 1 then Depth(k) else h
  }

  /** The next entry is at most twice as deep as the first block that an entry did not reach. */
  lemma DepthDoubles(j: nat)
    ensures Depth(j + 1) <= 2 * (Depth(j) + 1)
  {
    DepthNext(j);
  }

  /** A node whose chain forks off d blocks below the sender's tip finds a common block, no more than twice
      as deep as the fork. */
  lemma ForkFound(vHave: seq<Hash>, chain: Chain, h: int, genesis: Hash, inMain: Hash -> bool, d: nat)
    requires Recorded(vHave, chain, h, genesis) && ForksAt(chain, h, d, inMain) && genesis == chain[0]
    ensures var k, depth := FirstKnown(vHave, inMain), FoundDepth(vHave, h, inMain);
      k < |vHave| && vHave[k] == chain[h - depth] && inMain(vHave[k]) && d <= depth <= 2 * d
  {
    assert Depth(0) == 0;
    hide Depth, Count, FirstKnown;
    var k := FirstKnown(vHave, inMain);
    assert inMain(vHave[|vHave| - 1]);
    KnownDepth(vHave, chain, h, genesis, inMain, d, k);
    if k > 0 {
      UnknownDepth(vHave, chain, h, genesis, inMain, d, k - 1);
      DepthDoubles(k - 1);
    }
  }

  lemma UnknownDepth(vHave: seq<Hash>, chain: Chain, h: int, genesis: Hash, inMain: Hash -> bool, d: nat, j: nat)
    requires Recorded(vHave, chain, h, genesis) && ForksAt(chain, h, d, inMain) && j < |vHave| - 1 && !inMain(vHave[j])
    ensures Depth(j) < d
  {
    assert vHave[j] == chain[h - Depth(j)];
  }

  lemma KnownDepth(vHave: seq<Hash>, chain: Chain, h: int, genesis: Hash, inMain: Hash -> bool, d: nat, k: nat)
    requires Recorded(vHave, chain, h, genesis) && ForksAt(chain, h, d, inMain) && k < |vHave| && inMain(vHave[k])
    ensures k < |vHave| - 1 ==> Depth(k) >= d && vHave[k] == chain[h - Depth(k)]
    ensures k == |vHave| - 1 ==> Depth(k) > h
  {
    assert k < |vHave| - 1 ==> vHave[k] == chain[h - Depth(k)];
  }

  /** Exactly the recorded depth comes back for every entry but the last, although the two loops double
      their steps on different tests; the last stands for a depth beyond the chain. */
  lemma DistanceIsDepth(vHave: seq<Hash>, chain: Chain, h: int, genesis: Hash, k: nat)
    requires Recorded(vHave, chain, h, genesis) && k < |vHave|
    ensures if k < |vHave| - 1 then vHave[k] == chain[h - Depth(k)] else Depth(k) > h
  {
  }

  function FloorLog2(n: nat): nat
    requires n >= 1
  {
    if n == 1 then 0 else 1 + FloorLog2(n / 2)
  }

  lemma {:induction false} Pow2AtMost(k: nat, n: nat)
    requires Pow2(k) <= n
    ensures k <= FloorLog2(n)
  {
    if k > 0 {
      assert Pow2(k) == 2 * Pow2(k - 1);
      Pow2AtMost(k - 1, n / 2);
    }
  }

  lemma {:induction false} Log2Bounds(n: nat)
    requires n >= 1
    ensures Pow2(FloorLog2(n)) <= n < Pow2(FloorLog2(n) + 1)
  {
    if n > 1 { Log2Bounds(n / 2); }
  }

  /** A locator has one entry for each of the blocks down to depth 11, then one for each doubling, and the genesis
      block. */
  lemma RecordedSize(vHave: seq<Hash>, chain: Chain, h: int, genesis: Hash)
    requires Recorded(vHave, chain, h, genesis)
    ensures |vHave| == if h < 11 then h + 2 else 12 + FloorLog2(h - 9)
  {
    if h < 11 {
      CountIs(h, h + 1);
    } else {
      Log2Bounds(h - 9);
      var k := FloorLog2(h - 9);
      Pow2AtMost(1, h - 9);
      CountIs(h, k + 11);
    }
  }

  /** The three methods together, between two nodes. */
  method Synchronize(chain: Chain, genesis: Hash, inMain: Hash -> bool, ghost d: nat)
    returns (found: Hash, nDistance: int, ghost depth: nat)
    requires chain != [] && genesis == chain[0] && ForksAt(chain, |chain| - 1, d, inMain)
    ensures d <= depth <= 2 * d && depth < |chain| && found == chain[|chain| - 1 - depth] && inMain(found)
    ensures nDistance == depth || (depth == |chain| - 1 && nDistance > depth)
  {
    hide Depth, FirstKnown;
    var locator := new CBlockLocator();
    locator.Set(chain, |chain| - 1, genesis);
    found := locator.GetBlockIndex(inMain, genesis);
    nDistance := locator.GetDistanceBack(inMain);
    ForkFound(locator.vHave, chain, |chain| - 1, genesis, inMain, d);
    DistanceIsDepth(locator.vHave, chain, |chain| - 1, genesis, FirstKnown(locator.vHave, inMain));
    depth := FoundDepth(locator.vHave, |chain| - 1, inMain);
  }
}
