/** The Merkle tree of a block, kept as one flat array (src/main.h). */
module Merkle {

  import opened PowersOfTwo

  /** A hash is any number: on 256 bits no pair hash is injective. */
  type Hash = nat

  /** Hash of two hashes in a row. */
  type Pair = (Hash, Hash) -> Hash

  function Min(a: int, b: int): int {
    if a < b then a else b
  }

  /** nIndex ^ 1, for the index of the other child of the same parent. */
  function Sibling(i: nat): nat {
    if i % 2 == 0 then i + 1 else i - 1
  }

  /** The level above: neighbours are paired, and an odd last element is paired with itself. */
  function Above(pair: Pair, level: seq<Hash>): (r: seq<Hash>)
    ensures |r| == (|level| + 1) / 2
    ensures forall k :: 0 <= k < |r| ==> r[k] == pair(level[2 * k], level[Min(2 * k + 1, |level| - 1)])
  {
    seq((|level| + 1) / 2,
      k requires 0 <= k < (|level| + 1) / 2 => pair(level[2 * k], level[Min(2 * k + 1, |level| - 1)]))
  }

  /** The root as a recursive tree. */
  function Root(pair: Pair, level: seq<Hash>): Hash
    decreases |level|
  {
    if level == [] then 0 else if |level| == 1 then level[0] else Root(pair, Above(pair, level))
  }

  function Height(n: nat): nat {
    if n <= 1 then 0 else 1 + Height((n + 1) / 2)
  }

  /** All levels in a row, leaves first. */
  function Flat(pair: Pair, level: seq<Hash>): (r: seq<Hash>)
    ensures |r| >= |level|
    decreases |level|
  {
    if |level| <= 1 then level else level + Flat(pair, Above(pair, level))
  }

  function Branch(pair: Pair, level: seq<Hash>, i: nat): (r: seq<Hash>)
    ensures |r| == Height(|level|)
    decreases |level|
  {
    if |level| <= 1 then [] else [level[Min(Sibling(i), |level| - 1)]] + Branch(pair, Above(pair, level), i / 2)
  }

  function Combine(pair: Pair, hash: Hash, otherside: Hash, i: int): Hash {
    if i % 2 == 1 then pair(otherside, hash) else pair(hash, otherside)
  }

  /** Folding a branch from a hash at place i. */
  function Climb(pair: Pair, hash: Hash, branch: seq<Hash>, i: int): Hash
    decreases |branch|
  {
    if branch == [] then hash else Climb(pair, Combine(pair, hash, branch[0], i), branch[1..], i / 2)
  }

  lemma {:induction false} ClimbAppend(pair: Pair, hash: Hash, branch: seq<Hash>, x: Hash, i: int, j: int)
    requires j == Halved(i, |branch|)
    ensures Climb(pair, hash, branch + [x], i) == Combine(pair, Climb(pair, hash, branch, i), x, j)
    decreases |branch|
  {
    if branch != [] {
      assert (branch + [x])[1..] == branch[1..] + [x];
      ClimbAppend(pair, Combine(pair, hash, branch[0], i), branch[1..], x, i / 2, j);
    }
  }

  /** i shifted right n times. */
  function Halved(i: int, n: nat): int
    decreases n
  {
    if n == 0 then i else Halved(i / 2, n - 1)
  }

  lemma {:induction false} HalvedNext(i: int, n: nat)
    ensures Halved(i, n + 1) == Halved(i, n) / 2
    decreases n
  {
    if n > 0 { HalvedNext(i / 2, n - 1); }
  }

  // ----- the branch of a leaf

  /** Climbing the branch of leaf i from leaf i reaches the root. */
  lemma {:induction false} BranchLeadsToRoot(pair: Pair, level: seq<Hash>, i: nat)
    requires i < |level|
    ensures Climb(pair, level[i], Branch(pair, level, i), i) == Root(pair, level)
    decreases |level|
  {
    if |level| > 1 {
      var above := Above(pair, level);
      assert Combine(pair, level[i], level[Min(Sibling(i), |level| - 1)], i) == above[i / 2];
      BranchLeadsToRoot(pair, above, i / 2);
      assert Branch(pair, level, i)[1..] == Branch(pair, above, i / 2);
    }
  }

  ghost predicate Injective(pair: Pair) {
    forall a, b, c, d :: pair(a, b) == pair(c, d) ==> a == c && b == d
  }

  /** With an injective pair hash, a branch of the tree's height that leads to the root from place i starts
      at leaf i, and is that leaf's branch. */
  lemma {:induction false} RootForcesLeaf(pair: Pair, level: seq<Hash>, i: nat, hash: Hash, branch: seq<Hash>)
    requires Injective(pair) && i < |level| && |branch| == Height(|level|)
    requires Climb(pair, hash, branch, i) == Root(pair, level)
    ensures hash == level[i] && branch == Branch(pair, level, i)
    decreases |level|
  {
    if |level| > 1 {
      BranchLevel(pair, level, i);
      hide Above, Injective, Branch;
      RootForcesLeaf(pair, Above(pair, level), i / 2, Combine(pair, hash, branch[0], i), branch[1..]);
      ParentForcesChildren(pair, level, i, hash, branch[0]);
      hide Combine, Climb, Root;
      assert branch == [branch[0]] + branch[1..];
    }
  }

  lemma ParentForcesChildren(pair: Pair, level: seq<Hash>, i: nat, hash: Hash, otherside: Hash)
    requires Injective(pair) && i < |level| && |level| > 1
    requires Combine(pair, hash, otherside, i) == Above(pair, level)[i / 2]
    ensures hash == level[i] && otherside == level[Min(Sibling(i), |level| - 1)]
  {
    var left, right := level[2 * (i / 2)], level[Min(2 * (i / 2) + 1, |level| - 1)];
    hide Above, Injective;
    if i % 2 == 1 {
      Inject(pair, otherside, hash, left, right);
      assert 2 * (i / 2) + 1 == i;
    } else {
      Inject(pair, hash, otherside, left, right);
      assert 2 * (i / 2) == i;
    }
  }

  lemma Inject(pair: Pair, a: Hash, b: Hash, c: Hash, d: Hash)
    requires Injective(pair) && pair(a, b) == pair(c, d)
    ensures a == c && b == d
  {
  }

  // ----- when the root fixes the leaves

  /** With an injective pair hash, lists of one length have the same root exactly if they are the same. */
  lemma RootFixesLeaves(pair: Pair, a: seq<Hash>, b: seq<Hash>)
    requires Injective(pair) && |a| == |b|
    ensures Root(pair, a) == Root(pair, b) <==> a == b
  {
    hide Injective, Root, Branch, Climb;
    if Root(pair, a) == Root(pair, b) {
      forall i | 0 <= i < |a| ensures a[i] == b[i] {
        BranchLeadsToRoot(pair, a, i);
        RootForcesLeaf(pair, b, i, a[i], Branch(pair, a, i));
      }
    }
  }

  /** The leaves as the tree sees them, each level with an odd number of nodes being filled up with its last one. */
  function Padded(level: seq<Hash>): (r: seq<Hash>)
    ensures |r| == if level == [] then 0 else Pow2(Height(|level|))
  {
    seq(if level == [] then 0 else Pow2(Height(|level|)),
      k requires 0 <= k && level != [] => level[PaddedPlace(|level|, k)])
  }

  /** The leaf at place k of the padded list: below an upper node that is itself padded, the left leaf of its pair, or
      the right one if there is one. */
  function PaddedPlace(n: nat, k: nat): (i: nat)
    requires n > 0
    ensures i < n
  {
    if n == 1 then 0
    else
      var up := PaddedPlace((n + 1) / 2, k / 2);
      Min(2 * up + k % 2, n - 1)
  }

  lemma PaddedAbove(pair: Pair, level: seq<Hash>)
    requires |level| > 1
    ensures Above(pair, Padded(level)) == Padded(Above(pair, level))
  {
    hide Above, Height;
    PaddedLong(level);
    var up, p := Above(pair, level), Padded(level);
    forall k | 0 <= k < |Padded(up)| ensures Above(pair, p)[k] == Padded(up)[k] {
      PaddedPair(level, k);
    }
  }

  lemma PaddedPair(level: seq<Hash>, k: nat)
    requires |level| > 1 && 2 * k + 1 < |Padded(level)|
    ensures var up := PaddedPlace((|level| + 1) / 2, k);
      Padded(level)[2 * k] == level[2 * up] && Padded(level)[2 * k + 1] == level[Min(2 * up + 1, |level| - 1)]
  {
    hide Height;
    assert 2 * k / 2 == k && (2 * k + 1) / 2 == k;
  }

  lemma PaddedLong(level: seq<Hash>)
    requires |level| > 1
    ensures Pow2(Height(|level|)) == 2 * Pow2(Height((|level| + 1) / 2)) && |Padded(level)| > 1
  {
  }

  /** Padding does not change the root. */
  lemma {:induction false} PaddedRoot(pair: Pair, level: seq<Hash>)
    ensures Root(pair, Padded(level)) == Root(pair, level)
    decreases |level|
  {
    if |level| > 1 {
      PaddedLong(level);
      PaddedAbove(pair, level);
      PaddedRoot(pair, Above(pair, level));
      RootOnce(pair, level);
      RootOnce(pair, Padded(level));
    } else {
      assert Padded(level) == level;
    }
  }

  /** With an injective pair hash, trees of one height have the same root exactly if their padded leaves are the same.
      */
  lemma RootFixesPadded(pair: Pair, a: seq<Hash>, b: seq<Hash>)
    requires Injective(pair) && a != [] && b != [] && Height(|a|) == Height(|b|)
    ensures Root(pair, a) == Root(pair, b) <==> Padded(a) == Padded(b)
  {
    hide Injective, Root, Padded;
    PaddedRoot(pair, a);
    PaddedRoot(pair, b);
    RootFixesLeaves(pair, Padded(a), Padded(b));
  }

  /** The level k levels above the leaves. */
  function Up(pair: Pair, level: seq<Hash>, k: nat): (r: seq<Hash>)
    requires level != [] && k <= Height(|level|)
    ensures r != [] && Height(|r|) == Height(|level|) - k
    decreases k
  {
    if k == 0 then level else Up(pair, Above(pair, level), k - 1)
  }

  lemma {:induction false} UpToRoot(pair: Pair, level: seq<Hash>, k: nat)
    requires level != [] && k <= Height(|level|)
    ensures Root(pair, Up(pair, level, k)) == Root(pair, level)
    decreases k
  {
    hide Root;
    if k > 0 {
      RootOnce(pair, level);
      UpToRoot(pair, Above(pair, level), k - 1);
    }
  }

  /** With an injective pair hash, two trees have the same root exactly if the leaves of the lower one, padded, are the
      padded nodes of the higher one at that height. */
  lemma RootFixesLevel(pair: Pair, a: seq<Hash>, b: seq<Hash>)
    requires Injective(pair) && a != [] && b != [] && Height(|a|) >= Height(|b|)
    ensures Root(pair, a) == Root(pair, b) <==> Padded(Up(pair, a, Height(|a|) - Height(|b|))) == Padded(b)
  {
    hide Injective, Root, Padded, Height;
    UpToRoot(pair, a, Height(|a|) - Height(|b|));
    RootFixesPadded(pair, Up(pair, a, Height(|a|) - Height(|b|)), b);
  }

  /** Trees of different heights can have the same root: a hash of two leaves may stand as a leaf itself. */
  lemma RootOfOneLeaf(pair: Pair, a: Hash, b: Hash)
    ensures Root(pair, [pair(a, b)]) == Root(pair, [a, b])
  {
    RootOnce(pair, [a, b]);
    assert Above(pair, [a, b]) == [pair(a, b)];
  }

  /** The root alone does not fix the list of leaves: repeating the last of an odd number of leaves changes
      nothing. */
  lemma RepeatedLastLeaf(pair: Pair, level: seq<Hash>)
    requires |level| % 2 == 1 && |level| > 1
    ensures Root(pair, level + [level[|level| - 1]]) == Root(pair, level)
  {
    SameLevelAbove(pair, level);
    RootOnce(pair, level);
    RootOnce(pair, level + [level[|level| - 1]]);
  }

  lemma RootOnce(pair: Pair, level: seq<Hash>)
    requires |level| > 1
    ensures Root(pair, level) == Root(pair, Above(pair, level))
  {
    hide Above;
  }

  lemma SameLevelAbove(pair: Pair, level: seq<Hash>)
    requires |level| % 2 == 1
    ensures Above(pair, level + [level[|level| - 1]]) == Above(pair, level)
  {
    hide Above, Root;
    var n, m, longer := |level|, |level| / 2, level + [level[|level| - 1]];
    assert n == 2 * m + 1 && |Above(pair, level)| == m + 1 == |Above(pair, longer)|;
    forall k | 0 <= k <= m ensures Above(pair, longer)[k] == Above(pair, level)[k] {
      if k < m { assert longer[2 * k + 1] == level[2 * k + 1]; }
    }
  }

  lemma {:induction false} FlatEndsInRoot(pair: Pair, level: seq<Hash>)
    requires level != []
    ensures Flat(pair, level)[|Flat(pair, level)| - 1] == Root(pair, level)
    decreases |level|
  {
    if |level| > 1 { FlatEndsInRoot(pair, Above(pair, level)); }
  }

  lemma FlatLevel(pair: Pair, level: seq<Hash>)
    requires |level| > 1
    ensures Flat(pair, level) == level + Flat(pair, Above(pair, level))
    ensures Flat(pair, level)[|level|..] == Flat(pair, Above(pair, level))
  {
  }

  lemma BranchLevel(pair: Pair, level: seq<Hash>, i: nat)
    requires |level| > 1
    ensures Branch(pair, level, i) == [level[Min(Sibling(i), |level| - 1)]] + Branch(pair, Above(pair, level), i / 2)
  {
  }

  /** One round of GetMerkleBranch. */
  lemma BranchStep(pair: Pair, tree: seq<Hash>, j: nat, level: seq<Hash>, sofar: seq<Hash>, i: nat)
    requires |level| > 1 && j <= |tree| && tree[j..] == Flat(pair, level)
    ensures j + |level| <= |tree| && tree[j + |level|..] == Flat(pair, Above(pair, level))
    ensures sofar + Branch(pair, level, i)
      == sofar + [tree[j + Min(Sibling(i), |level| - 1)]] + Branch(pair, Above(pair, level), i / 2)
  {
    FlatLevel(pair, level);
    BranchLevel(pair, level, i);
    hide Flat, Branch, Above;
    assert tree[j + |level|..] == tree[j..][|level|..];
    assert tree[j + Min(Sibling(i), |level| - 1)] == tree[j..][Min(Sibling(i), |level| - 1)];
  }

  lemma NextLevel(pair: Pair, before: seq<Hash>, j: nat, level: seq<Hash>)
    requires |level| > 1 && j + |level| == |before| && before[j..] == level
    ensures before[..j] + Flat(pair, level) == before + Flat(pair, Above(pair, level))
    ensures Root(pair, level) == Root(pair, Above(pair, level))
    ensures (before + Above(pair, level))[..|before|] == before
    ensures (before + Above(pair, level))[j + |level|..] == Above(pair, level)
  {
    hide Above, Flat;
    FlatLevel(pair, level);
    assert before == before[..j] + level;
  }

  lemma TopIsRoot(pair: Pair, vtx: seq<Hash>, tree: seq<Hash>, j: nat, level: seq<Hash>)
    requires |level| <= 1 && j <= |tree| && tree[j..] == level
    requires tree[..j] + Flat(pair, level) == Flat(pair, vtx)
    ensures tree == Flat(pair, vtx)
    ensures Root(pair, vtx) == if tree == [] then 0 else tree[|tree| - 1]
  {
    hide Above, Flat, Root;
    NoLevelAbove(pair, level);
    assert tree == tree[..j] + level;
    if vtx == [] {
      NoLevelAbove(pair, vtx);
    } else {
      FlatEndsInRoot(pair, vtx);
    }
  }

  lemma NoLevelAbove(pair: Pair, level: seq<Hash>)
    requires |level| <= 1
    ensures Flat(pair, level) == level && Root(pair, level) == if level == [] then 0 else level[0]
  {
  }

  // ----- the flat array

  class CBlock {
    const pair: Pair
    var vtx: seq<Hash>           // the hashes of the transactions
    var vMerkleTree: seq<Hash>

    constructor (pair: Pair, vtx: seq<Hash>)
      ensures this.pair == pair && this.vtx == vtx && vMerkleTree == []
    {
      this.pair, this.vtx, vMerkleTree := pair, vtx, [];
    }

    method BuildMerkleTree() returns (root: Hash)
      modifies this`vMerkleTree
      ensures vMerkleTree == Flat(pair, vtx) && root == Root(pair, vtx)
    {
      hide Above, Flat, Root;
      vMerkleTree := [];
      for n := 0 to |vtx|
        invariant vMerkleTree == vtx[..n]
      {
        vMerkleTree := vMerkleTree + [vtx[n]];
      }
      var j := 0;
      var nSize := |vtx|;
      ghost var level := vtx;
      while nSize > 1
        invariant 0 <= j && |level| == nSize && j + nSize == |vMerkleTree|
        invariant vMerkleTree[j..] == level
        invariant vMerkleTree[..j] + Flat(pair, level) == Flat(pair, vtx)
        invariant Root(pair, level) == Root(pair, vtx)
      {
        ghost var before := vMerkleTree;
        PushLevel(j, nSize, level);
        NextLevel(pair, before, j, level);
        level := Above(pair, level);
        j := j + nSize;
        nSize := (nSize + 1) / 2;
      }
      TopIsRoot(pair, vtx, vMerkleTree, j, level);
      root := if vMerkleTree == [] then 0 else vMerkleTree[|vMerkleTree| - 1];
    }

    /** The inner loop of BuildMerkleTree: appends the hashes of the pairs of one level. */
    method PushLevel(j: nat, nSize: nat, ghost level: seq<Hash>)
      requires nSize > 1 && |level| == nSize && j + nSize == |vMerkleTree| && vMerkleTree[j..] == level
      modifies this`vMerkleTree
      ensures vMerkleTree == old(vMerkleTree) + Above(pair, level)
    {
      hide Above;
      var i := 0;
      while i < nSize
        invariant 0 <= i <= nSize + 1 && i % 2 == 0
        invariant vMerkleTree == old(vMerkleTree) + Above(pair, level)[..(i + 1) / 2]
      {
        var i2 := Min(i + 1, nSize - 1);
        assert vMerkleTree[j + i] == level[i] && vMerkleTree[j + i2] == level[i2];
        assert Above(pair, level)[i / 2] == pair(level[2 * (i / 2)], level[Min(2 * (i / 2) + 1, nSize - 1)]);
        vMerkleTree := vMerkleTree + [pair(vMerkleTree[j + i], vMerkleTree[j + i2])];
        i := i + 2;
      }
    }

    /** The siblings on the way from leaf nIndex to the root; the tree is built unless it is there. */
    method GetMerkleBranch(nIndex: nat) returns (vMerkleBranch: seq<Hash>)
      requires vMerkleTree == [] || vMerkleTree == Flat(pair, vtx)
      modifies this`vMerkleTree
      ensures vMerkleBranch == Branch(pair, vtx, nIndex)
      ensures vMerkleTree == Flat(pair, vtx)
    {
      hide Flat, Branch, Above;
      if vMerkleTree == [] {
        var root := BuildMerkleTree();
      }
      vMerkleBranch := [];
      var j := 0;
      var nSize := |vtx|;
      var index := nIndex;
      ghost var level := vtx;
      while nSize > 1
        invariant vMerkleTree == Flat(pair, vtx)
        invariant 0 <= j && |level| == nSize && j <= |vMerkleTree|
        invariant vMerkleTree[j..] == Flat(pair, level)
        invariant vMerkleBranch + Branch(pair, level, index) == Branch(pair, vtx, nIndex)
      {
        BranchStep(pair, vMerkleTree, j, level, vMerkleBranch, index);
        var i := Min(Sibling(index), nSize - 1);
        vMerkleBranch := vMerkleBranch + [vMerkleTree[j + i]];
        index := index / 2;
        level := Above(pair, level);
        j := j + nSize;
        nSize := (nSize + 1) / 2;
      }
      assert Branch(pair, level, index) == [];
    }

    static method CheckMerkleBranch(pair: Pair, hash: Hash, vMerkleBranch: seq<Hash>, nIndex: int) returns (r: Hash)
      ensures r == if nIndex == -1 then 0 else Climb(pair, hash, vMerkleBranch, nIndex)
    {
      if nIndex == -1 { return 0; }
      r := hash;
      var index := nIndex;
      var k := 0;
      while k < |vMerkleBranch|
        invariant 0 <= k <= |vMerkleBranch|
        invariant r == Climb(pair, hash, vMerkleBranch[..k], nIndex) && index == Halved(nIndex, k)
      {
        var otherside := vMerkleBranch[k];
        assert vMerkleBranch[..k + 1] == vMerkleBranch[..k] + [otherside];
        ClimbAppend(pair, hash, vMerkleBranch[..k], otherside, nIndex, index);
        HalvedNext(nIndex, k);
        if index % 2 == 1 {
          r := pair(otherside, r);
        } else {
          r := pair(r, otherside);
        }
        index := index / 2;
        k := k + 1;
      }
      assert vMerkleBranch[..k] == vMerkleBranch;
    }
  }

  /** The three methods together: the branch of any leaf checks to the root that was built. */
  method BranchChecks(block: CBlock, nIndex: nat) returns (root: Hash, checked: Hash)
    requires nIndex < |block.vtx|
    modifies block`vMerkleTree
    ensures checked == root == Root(block.pair, block.vtx)
  {
    root := block.BuildMerkleTree();
    var vMerkleBranch := block.GetMerkleBranch(nIndex);
    checked := CBlock.CheckMerkleBranch(block.pair, block.vtx[nIndex], vMerkleBranch, nIndex);
    BranchLeadsToRoot(block.pair, block.vtx, nIndex);
  }
}
