/** Synchronized checkpoints over a growing block tree (src/checkpoints.cpp). */
module Checkpoints {

  /** 0 stands for no hash. */
  type Hash = nat

  datatype Prev = Null | Prev(hash: Hash)

  /** A node of the block index. */
  datatype Node = Node(nHeight: int, pprev: Prev)

  type Tree = map<Hash, Node>

  /** Every block is one higher than its predecessor, down to a first block at height 0. */
  ghost predicate WellFormed(tree: Tree) {
    forall h :: h in tree ==>
      match tree[h].pprev
      case Null => tree[h].nHeight == 0
      case Prev(p) => p in tree && tree[h].nHeight == tree[p].nHeight + 1 && tree[p].nHeight >= 0
  }

  /** The block at height k on the way down from h. */
  ghost function Ancestor(tree: Tree, h: Hash, k: int): (a: Hash)
    requires WellFormed(tree) && h in tree && 0 <= k <= tree[h].nHeight
    ensures a in tree && tree[a].nHeight == k
    decreases tree[h].nHeight
  {
    if tree[h].nHeight == k then h else Ancestor(tree, tree[h].pprev.hash, k)
  }

  /** b lies on a chain above a, or is a. */
  ghost predicate Descends(tree: Tree, b: Hash, a: Hash)
    requires WellFormed(tree)
  {
    a in tree && b in tree && 0 <= tree[a].nHeight <= tree[b].nHeight && Ancestor(tree, b, tree[a].nHeight) == a
  }

  ghost predicate StrictlyDescends(tree: Tree, b: Hash, a: Hash)
    requires WellFormed(tree)
  {
    Descends(tree, b, a) && a != b
  }

  lemma {:induction false} AncestorOfAncestor(tree: Tree, h: Hash, j: int, k: int)
    requires WellFormed(tree) && h in tree && 0 <= j <= k <= tree[h].nHeight
    ensures Ancestor(tree, Ancestor(tree, h, k), j) == Ancestor(tree, h, j)
    decreases tree[h].nHeight
  {
    if tree[h].nHeight > k {
      AncestorOfAncestor(tree, tree[h].pprev.hash, j, k);
    }
  }

  lemma DescendsTransitive(tree: Tree, c: Hash, b: Hash, a: Hash)
    requires WellFormed(tree) && Descends(tree, c, b) && Descends(tree, b, a)
    ensures Descends(tree, c, a)
  {
    AncestorOfAncestor(tree, c, tree[a].nHeight, tree[b].nHeight);
  }

  /** Two ancestors of one block lie on one path. */
  lemma OnePath(tree: Tree, c: Hash, b: Hash, a: Hash)
    requires WellFormed(tree) && Descends(tree, c, b) && Descends(tree, c, a) && tree[a].nHeight <= tree[b].nHeight
    ensures Descends(tree, b, a)
  {
    AncestorOfAncestor(tree, c, tree[a].nHeight, tree[b].nHeight);
  }

  /** Strict descent is descent to a greater height. */
  lemma StrictIsHigher(tree: Tree, b: Hash, a: Hash)
    requires WellFormed(tree) && Descends(tree, b, a)
    ensures a != b <==> tree[b].nHeight > tree[a].nHeight
  {
  }

  /** The tree with one more block on top of "prev". */
  function Grown(tree: Tree, h: Hash, prev: Hash): Tree
    requires prev in tree
  {
    tree[h := Node(tree[prev].nHeight + 1, Prev(prev))]
  }

  lemma HeightsAtLeastZero(tree: Tree, h: Hash)
    requires WellFormed(tree) && h in tree
    ensures tree[h].nHeight >= 0
  {
  }

  lemma {:induction false} GrownAncestor(tree: Tree, h: Hash, prev: Hash, x: Hash, k: int)
    requires WellFormed(tree) && prev in tree && h !in tree && x in tree && 0 <= k <= tree[x].nHeight
    ensures WellFormed(Grown(tree, h, prev)) && Ancestor(Grown(tree, h, prev), x, k) == Ancestor(tree, x, k)
    decreases tree[x].nHeight
  {
    HeightsAtLeastZero(tree, prev);
    if tree[x].nHeight > k { GrownAncestor(tree, h, prev, tree[x].pprev.hash, k); }
  }

  /** A new block descends from all that its predecessor descends from, and no old descent changes. */
  lemma GrownDescends(tree: Tree, h: Hash, prev: Hash)
    requires WellFormed(tree) && prev in tree && h !in tree
    ensures WellFormed(Grown(tree, h, prev))
    ensures forall a, b :: a in tree && b in tree ==> (Descends(Grown(tree, h, prev), b, a) <==> Descends(tree, b, a))
    ensures forall a :: a in tree ==> (Descends(Grown(tree, h, prev), h, a) <==> Descends(tree, prev, a))
  {
    var u := Grown(tree, h, prev);
    HeightsAtLeastZero(tree, prev);
    assert WellFormed(u);
    forall a, b | a in tree && b in tree ensures Descends(u, b, a) <==> Descends(tree, b, a) {
      HeightsAtLeastZero(tree, a);
      if tree[a].nHeight <= tree[b].nHeight { GrownAncestor(tree, h, prev, b, tree[a].nHeight); }
    }
    forall a | a in tree ensures Descends(u, h, a) <==> Descends(tree, prev, a) {
      HeightsAtLeastZero(tree, a);
      if tree[a].nHeight <= tree[prev].nHeight { GrownAncestor(tree, h, prev, prev, tree[a].nHeight); }
    }
  }

  /** Checkpoints on one root path, each strictly above the one before. */
  ghost predicate OnOnePath(tree: Tree, held: seq<Hash>) {
    && WellFormed(tree)
    && (forall i :: 0 <= i < |held| ==> held[i] in tree)
    && (forall i, j :: 0 <= i < j < |held| ==> StrictlyDescends(tree, held[j], held[i]))
  }

  lemma PathInGrownTree(tree: Tree, h: Hash, prev: Hash, held: seq<Hash>)
    requires OnOnePath(tree, held) && prev in tree && h !in tree
    ensures OnOnePath(Grown(tree, h, prev), held)
  {
    hide Descends, WellFormed;
    GrownDescends(tree, h, prev);
  }

  /** What descends from the newest checkpoint descends from every earlier one. */
  lemma DescendsFromAll(tree: Tree, held: seq<Hash>, b: Hash)
    requires OnOnePath(tree, held) && held != [] && Descends(tree, b, held[|held| - 1])
    ensures forall i :: 0 <= i < |held| ==> Descends(tree, b, held[i])
  {
    hide WellFormed, Descends;
    forall i | 0 <= i < |held| ensures Descends(tree, b, held[i]) {
      if i < |held| - 1 { DescendsTransitive(tree, b, held[|held| - 1], held[i]); }
    }
  }

  /** A strict descendant of the newest checkpoint extends the path. */
  lemma PathExtends(tree: Tree, held: seq<Hash>, b: Hash)
    requires OnOnePath(tree, held) && held != [] && StrictlyDescends(tree, b, held[|held| - 1])
    ensures OnOnePath(tree, held + [b])
  {
    hide WellFormed, Descends;
    var n := |held|;
    DescendsFromAll(tree, held, b);
    DescendsInTree(tree, b, held[n - 1]);
    StrictIsHigher(tree, b, held[n - 1]);
    forall i | 0 <= i < n ensures StrictlyDescends(tree, b, held[i]) {
      if i < n - 1 { StrictIsHigher(tree, held[n - 1], held[i]); }
      StrictIsHigher(tree, b, held[i]);
    }
    assert (held + [b])[n] == b;
  }

  ghost predicate DescendsFromAllOf(tree: Tree, held: seq<Hash>, b: Hash)
    requires WellFormed(tree)
  {
    forall i :: 0 <= i < |held| ==> StrictlyDescends(tree, b, held[i])
  }

  lemma AllOf(tree: Tree, held: seq<Hash>, b: Hash)
    requires WellFormed(tree)
    ensures DescendsFromAllOf(tree, held, b) <==> forall i :: 0 <= i < |held| ==> StrictlyDescends(tree, b, held[i])
  {
  }

  lemma DescendsInTree(tree: Tree, b: Hash, a: Hash)
    requires WellFormed(tree) && Descends(tree, b, a)
    ensures b in tree && a in tree
  {
  }

  /** Heights of the checkpoints held rise strictly, and two different ones never have the same height. */
  lemma HeldHeightsRise(tree: Tree, held: seq<Hash>, i: nat, j: nat)
    requires OnOnePath(tree, held) && i < |held| && j < |held|
    ensures i < j <==> tree[held[i]].nHeight < tree[held[j]].nHeight
  {
    hide WellFormed, Descends;
    if i < j { StrictIsHigher(tree, held[j], held[i]); }
    if j < i { StrictIsHigher(tree, held[i], held[j]); }
  }

  /** A new block that CheckSync passes is above the checkpoint, and once in the tree it descends from every checkpoint
      ever held. */
  lemma PassedDescendsFromAll(tree: Tree, held: seq<Hash>, sync: Hash, h: Hash, prev: Hash)
    requires OnOnePath(tree, held) && held != [] && held[|held| - 1] == sync && prev in tree && h !in tree
    ensures OnOnePath(Grown(tree, h, prev), held)
    ensures PassesSync(tree, sync, h, prev) ==>
      tree[prev].nHeight + 1 > tree[sync].nHeight && DescendsFromAllOf(Grown(tree, h, prev), held, h)
  {
    hide WellFormed, Descends;
    PathInGrownTree(tree, h, prev, held);
    if PassesSync(tree, sync, h, prev) {
      DescendsFromAll(tree, held, prev);
      GrownDescends(tree, h, prev);
    }
  }

  /** What a passing block's position must be, off the test network. */
  ghost predicate PassesSync(tree: Tree, sync: Hash, h: Hash, prev: Hash)
    requires WellFormed(tree) && sync in tree && prev in tree
  {
    var nHeight := tree[prev].nHeight + 1;
    if nHeight > tree[sync].nHeight then Descends(tree, prev, sync)
    else if nHeight == tree[sync].nHeight then h == sync
    else h in tree
  }

  /** A new block passes exactly if it comes on top of the checkpoint or of a descendant of it. */
  lemma NewBlockPasses(tree: Tree, sync: Hash, h: Hash, prev: Hash)
    requires WellFormed(tree) && sync in tree && prev in tree && h !in tree
    ensures PassesSync(tree, sync, h, prev) <==> Descends(tree, prev, sync)
  {
    hide WellFormed;
  }

  /** What code outside answers in one call: whether the checkpoint's block is in the main chain, whether it
      can be read and made the best chain, and whether the two database steps succeed. */
  datatype Outside = Outside(inMain: bool, readOk: bool, setBestOk: bool, writeOk: bool, commitOk: bool)

  /** Whether the outside world lets a valid checkpoint through. */
  predicate Succeeds(outside: Outside) {
    (outside.inMain || (outside.readOk && outside.setBestOk)) && outside.writeOk && outside.commitOk
  }

  /** Whether SetBestChain is tried and fails. */
  predicate ReorganizeFails(outside: Outside) {
    !outside.inMain && outside.readOk && !outside.setBestOk
  }

  /** Neither block is on the way from the other down to the root. */
  ghost predicate Conflicts(tree: Tree, b: Hash, a: Hash)
    requires WellFormed(tree)
  {
    b in tree && !Descends(tree, b, a) && !Descends(tree, a, b)
  }

  /** Whether a known signature and a helpful outside world turn b into the checkpoint after a. */
  ghost predicate Adopted(tree: Tree, b: Hash, a: Hash, outside: Outside)
    requires WellFormed(tree)
  {
    StrictlyDescends(tree, b, a) && Succeeds(outside)
  }

  /** Whether b is remembered as an invalid checkpoint. */
  ghost predicate Blamed(tree: Tree, b: Hash, a: Hash, outside: Outside)
    requires WellFormed(tree)
  {
    Conflicts(tree, b, a) || (StrictlyDescends(tree, b, a) && ReorganizeFails(outside))
  }

  /** In figures, for a known block b beside the checkpoint a: with nothing amiss outside it becomes the checkpoint
      exactly if it is a strict descendant. It is blamed if it is on another branch, or if the chain cannot be
      reorganized to it,
        but
      never for being old or for a failing disk. */
  lemma FateOfCandidate(tree: Tree, b: Hash, a: Hash, outside: Outside)
    requires WellFormed(tree) && a in tree
    ensures b !in tree ==> !Adopted(tree, b, a, outside) && !Blamed(tree, b, a, outside)
    ensures b in tree && Descends(tree, a, b) ==> !Adopted(tree, b, a, outside) && !Blamed(tree, b, a, outside)
    ensures b in tree && !Descends(tree, a, b) && !Descends(tree, b, a) ==>
      !Adopted(tree, b, a, outside) && Blamed(tree, b, a, outside)
    ensures StrictlyDescends(tree, b, a) ==>
      && (Adopted(tree, b, a, outside) <==>
            (outside.inMain || (outside.readOk && outside.setBestOk)) && outside.writeOk && outside.commitOk)
      && (Blamed(tree, b, a, outside) <==> !outside.inMain && outside.readOk && !outside.setBestOk)
  {
    hide WellFormed;
    if Descends(tree, a, b) && Descends(tree, b, a) { SameBlock(tree, a, b); }
  }

  lemma SameBlock(tree: Tree, a: Hash, b: Hash)
    requires WellFormed(tree) && Descends(tree, a, b) && Descends(tree, b, a)
    ensures a == b
  {
  }

  lemma Apart(tree: Tree, b: Hash, a: Hash)
    requires WellFormed(tree)
    ensures StrictlyDescends(tree, b, a) ==> !Conflicts(tree, b, a) && b in tree && a in tree
    ensures Conflicts(tree, b, a) ==> b in tree
  {
  }

  datatype Op =
    | AcceptBlock(strict: bool, fTestNet: bool, hash: Hash, prev: Hash)
    | Process(checkpoint: Hash, signatureOk: bool, outside: Outside)
    | AcceptPending(outside: Outside)

  /** The block index, the three checkpoint variables, and every checkpoint ever held. */
  datatype State = State(tree: Tree, sync: Hash, pending: Hash, invalid: Hash, held: seq<Hash>) {
    ghost predicate Ok() {
      OnOnePath(tree, held) && held != [] && held[|held| - 1] == sync
    }
  }

  /** Whether an operation succeeds. A block must be new and have a known predecessor to be considered at all. */
  ghost predicate Succeeded(s: State, op: Op)
    requires s.Ok()
  {
    match op
    case AcceptBlock(strict, fTestNet, hash, prev) =>
      prev in s.tree && hash !in s.tree && (!strict || fTestNet || Descends(s.tree, prev, s.sync))
    case Process(checkpoint, signatureOk, outside) => signatureOk && Adopted(s.tree, checkpoint, s.sync, outside)
    case AcceptPending(outside) => s.pending != 0 && Adopted(s.tree, s.pending, s.sync, outside)
  }

  /** The state after an operation. */
  ghost function Next(s: State, op: Op): State
    requires s.Ok()
  {
    var ok := Succeeded(s, op);
    match op
    case AcceptBlock(_, _, hash, prev) => if ok then s.(tree := Grown(s.tree, hash, prev)) else s
    case Process(checkpoint, signatureOk, outside) =>
      var t := s.(invalid :=
        if signatureOk && Blamed(s.tree, checkpoint, s.sync, outside) then checkpoint else s.invalid);
      if ok then t.(sync := checkpoint, held := s.held + [checkpoint], pending := 0)
      else if signatureOk && checkpoint !in s.tree then t.(pending := checkpoint)
      else t
    case AcceptPending(outside) =>
      var t := s.(invalid :=
        if s.pending != 0 && Blamed(s.tree, s.pending, s.sync, outside) then s.pending else s.invalid);
      if ok then t.(sync := s.pending, held := s.held + [s.pending], pending := 0)
      else if s.pending in s.tree && !StrictlyDescends(s.tree, s.pending, s.sync) then t.(pending := 0)
      else t
  }

  lemma NextOk(s: State, op: Op)
    requires s.Ok()
    ensures Next(s, op).Ok()
  {
    hide Descends, WellFormed, PassesSync, StrictlyDescends, Conflicts;
    match op
    case AcceptBlock(_, _, hash, prev) =>
      if prev in s.tree && hash !in s.tree { PathInGrownTree(s.tree, hash, prev, s.held); }
    case Process(checkpoint, _, outside) =>
      if StrictlyDescends(s.tree, checkpoint, s.sync) { PathExtends(s.tree, s.held, checkpoint); }
    case AcceptPending(outside) =>
      if StrictlyDescends(s.tree, s.pending, s.sync) { PathExtends(s.tree, s.held, s.pending); }
  }

  /** The state after the first n operations. */
  ghost function After(s: State, ops: seq<Op>, n: nat): (r: State)
    requires s.Ok() && n <= |ops|
    ensures r.Ok()
  {
    if n == 0 then s
    else
      var u := After(s, ops, n - 1);
      NextOk(u, ops[n - 1]);
      Next(u, ops[n - 1])
  }

  /** No checkpoint once held is forgotten or reordered, and no block leaves the index. */
  lemma {:induction false} NothingForgotten(s: State, ops: seq<Op>, m: nat, n: nat)
    requires s.Ok() && m <= n <= |ops|
    ensures After(s, ops, m).held <= After(s, ops, n).held
    ensures forall h :: h in After(s, ops, m).tree ==>
      h in After(s, ops, n).tree && After(s, ops, n).tree[h] == After(s, ops, m).tree[h]
    decreases n
  {
    hide State.Ok, Succeeded, Blamed, StrictlyDescends;
    if m < n {
      NothingForgotten(s, ops, m, n - 1);
      NextKeeps(After(s, ops, n - 1), ops[n - 1]);
    }
  }

  lemma NextKeeps(s: State, op: Op)
    requires s.Ok()
    ensures s.held <= Next(s, op).held
    ensures forall h :: h in s.tree ==> h in Next(s, op).tree && Next(s, op).tree[h] == s.tree[h]
  {
    hide OnOnePath, Blamed, StrictlyDescends, Adopted, PassesSync;
  }

  lemma {:induction false} DescentKept(s: State, ops: seq<Op>, m: nat, n: nat, b: Hash, a: Hash)
    requires s.Ok() && m <= n <= |ops|
    ensures WellFormed(After(s, ops, m).tree) && WellFormed(After(s, ops, n).tree)
    ensures StrictlyDescends(After(s, ops, m).tree, b, a) ==> StrictlyDescends(After(s, ops, n).tree, b, a)
    decreases n
  {
    hide WellFormed, Next, StrictlyDescends;
    if m < n {
      DescentKept(s, ops, m, n - 1, b, a);
      NextOk(After(s, ops, n - 1), ops[n - 1]);
      NextDescends(After(s, ops, n - 1), ops[n - 1], b, a);
    }
  }

  lemma NextDescends(s: State, op: Op, b: Hash, a: Hash)
    requires s.Ok() && Next(s, op).Ok()
    ensures StrictlyDescends(s.tree, b, a) ==> StrictlyDescends(Next(s, op).tree, b, a)
  {
    hide WellFormed, Blamed, Adopted, PassesSync;
    if StrictlyDescends(s.tree, b, a) { DescendsInTree(s.tree, b, a); }
    if op.AcceptBlock? && op.prev in s.tree && op.hash !in s.tree { GrownDescends(s.tree, op.hash, op.prev); }
  }

  /** The operation brings a new block where the check is enforced. */
  predicate Enforced(op: Op) {
    op.AcceptBlock? && op.strict && !op.fTestNet
  }

  /** Where the check is enforced, nothing is accepted at or below the height of the checkpoint. */
  lemma AcceptedAbove(s: State, op: Op)
    requires s.Ok() && Enforced(op) && Succeeded(s, op)
    ensures s.tree[op.prev].nHeight + 1 > s.tree[s.sync].nHeight
  {
    hide WellFormed, Descends, PassesSync;
    NewBlockPasses(s.tree, s.sync, op.hash, op.prev);
    PassedDescendsFromAll(s.tree, s.held, s.sync, op.hash, op.prev);
  }

  lemma AcceptedNow(s: State, op: Op)
    requires s.Ok() && Enforced(op) && Succeeded(s, op)
    ensures Next(s, op).Ok() && DescendsFromAllOf(Next(s, op).tree, s.held, op.hash)
  {
    hide WellFormed, Descends, DescendsFromAllOf, PassesSync;
    NextOk(s, op);
    NewBlockPasses(s.tree, s.sync, op.hash, op.prev);
    PassedDescendsFromAll(s.tree, s.held, s.sync, op.hash, op.prev);
  }

  /** In every run, a block accepted where the check is enforced descends, then and ever after, from all the checkpoints
      held until it came. */
  lemma AcceptedDescends(s: State, ops: seq<Op>, m: nat, n: nat)
    requires s.Ok() && m < n <= |ops| && Enforced(ops[m]) && Succeeded(After(s, ops, m), ops[m])
    ensures WellFormed(After(s, ops, n).tree)
    ensures var held := After(s, ops, m).held;
      forall i :: 0 <= i < |held| ==> StrictlyDescends(After(s, ops, n).tree, ops[m].hash, held[i])
  {
    hide OnOnePath, WellFormed, DescendsFromAllOf, Succeeded, Next;
    var u := After(s, ops, m);
    AcceptedNow(u, ops[m]);
    assert After(s, ops, m + 1) == Next(u, ops[m]);
    AllDescentKept(s, ops, m + 1, n, u.held, ops[m].hash);
    AllOf(After(s, ops, n).tree, u.held, ops[m].hash);
  }

  lemma AllDescentKept(s: State, ops: seq<Op>, m: nat, n: nat, held: seq<Hash>, b: Hash)
    requires s.Ok() && m <= n <= |ops|
    ensures WellFormed(After(s, ops, m).tree) && WellFormed(After(s, ops, n).tree)
    ensures DescendsFromAllOf(After(s, ops, m).tree, held, b) ==> DescendsFromAllOf(After(s, ops, n).tree, held, b)
  {
    hide State.Ok, WellFormed, StrictlyDescends, After;
    DescentKept(s, ops, m, n, b, 0);
    forall i | 0 <= i < |held| {
      DescentKept(s, ops, m, n, b, held[i]);
    }
  }

  class SyncCheckpoints {
    var mapBlockIndex: Tree
    var hashSyncCheckpoint: Hash
    var hashPendingCheckpoint: Hash
    var hashInvalidCheckpoint: Hash
    ghost var held: seq<Hash>      // every checkpoint ever held, oldest first

    ghost predicate Valid()
      reads this`mapBlockIndex, this`held, this`hashSyncCheckpoint
    {
      OnOnePath(mapBlockIndex, held) && held != [] && held[|held| - 1] == hashSyncCheckpoint
    }

    ghost function S(): State
      reads this
    {
      State(mapBlockIndex, hashSyncCheckpoint, hashPendingCheckpoint, hashInvalidCheckpoint, held)
    }

    constructor (hashGenesisBlock: Hash)
      ensures Valid() && held == [hashGenesisBlock]
      ensures hashPendingCheckpoint == 0
    {
      mapBlockIndex := map[hashGenesisBlock := Node(0, Null)];
      hashSyncCheckpoint, hashPendingCheckpoint, hashInvalidCheckpoint := hashGenesisBlock, 0, 0;
      held := [hashGenesisBlock];
    }

    /** Follows pprev down to a height; false when the chain ends before. */
    method TraceBack(from: Hash, nHeight: int) returns (ok: bool, pindex: Hash)
      requires WellFormed(mapBlockIndex) && from in mapBlockIndex && 0 <= nHeight <= mapBlockIndex[from].nHeight
      ensures ok && pindex == Ancestor(mapBlockIndex, from, nHeight)
    {
      pindex := from;
      while mapBlockIndex[pindex].nHeight > nHeight
        invariant pindex in mapBlockIndex && mapBlockIndex[pindex].nHeight >= nHeight
        invariant Ancestor(mapBlockIndex, pindex, nHeight) == Ancestor(mapBlockIndex, from, nHeight)
        decreases mapBlockIndex[pindex].nHeight
      {
        if mapBlockIndex[pindex].pprev.Null? { return false, pindex; }
        pindex := mapBlockIndex[pindex].pprev.hash;
      }
      ok := true;
    }

    /** Only a strict descendant of the current checkpoint will do; one that conflicts with it is remembered
        as invalid, and one below it is ignored. */
    method ValidateSyncCheckpoint(hashCheckpoint: Hash) returns (ok: bool)
      requires WellFormed(mapBlockIndex) && hashSyncCheckpoint in mapBlockIndex
      modifies this`hashInvalidCheckpoint
      ensures ok <==> StrictlyDescends(mapBlockIndex, hashCheckpoint, hashSyncCheckpoint)
      ensures hashInvalidCheckpoint ==
        if Conflicts(mapBlockIndex, hashCheckpoint, hashSyncCheckpoint) then hashCheckpoint
        else old(hashInvalidCheckpoint)
    {
      if hashSyncCheckpoint !in mapBlockIndex { return false; }
      if hashCheckpoint !in mapBlockIndex { return false; }
      HeightsAtLeastZero(mapBlockIndex, hashCheckpoint);
      HeightsAtLeastZero(mapBlockIndex, hashSyncCheckpoint);
      var traced, pindex;
      if mapBlockIndex[hashCheckpoint].nHeight <= mapBlockIndex[hashSyncCheckpoint].nHeight {
        traced, pindex := TraceBack(hashSyncCheckpoint, mapBlockIndex[hashCheckpoint].nHeight);
        if !traced { return false; }
        if pindex != hashCheckpoint { hashInvalidCheckpoint := hashCheckpoint; }
        return false;
      }
      traced, pindex := TraceBack(hashCheckpoint, mapBlockIndex[hashSyncCheckpoint].nHeight);
      if !traced { return false; }
      if pindex != hashSyncCheckpoint {
        hashInvalidCheckpoint := hashCheckpoint;
        return false;
      }
      return true;
    }

    method WriteSyncCheckpoint(hashCheckpoint: Hash, outside: Outside) returns (ok: bool)
      requires Valid() && StrictlyDescends(mapBlockIndex, hashCheckpoint, hashSyncCheckpoint)
      modifies this`hashSyncCheckpoint, this`held
      ensures Valid() && ok == (outside.writeOk && outside.commitOk)
      ensures held == if ok then old(held) + [hashCheckpoint] else old(held)
    {
      hide OnOnePath, StrictlyDescends;
      if !outside.writeOk { return false; }
      if !outside.commitOk { return false; }
      PathExtends(mapBlockIndex, held, hashCheckpoint);
      hashSyncCheckpoint := hashCheckpoint;
      held := held + [hashCheckpoint];
      return true;
    }

    /** The stored pending checkpoint is tried once its block has arrived. */
    method AcceptPendingSyncCheckpoint(outside: Outside) returns (ok: bool)
      requires Valid()
      modifies this`hashSyncCheckpoint, this`hashPendingCheckpoint, this`hashInvalidCheckpoint, this`held
      ensures Valid()
      ensures ok ==
        old(hashPendingCheckpoint != 0 && Adopted(mapBlockIndex, hashPendingCheckpoint, hashSyncCheckpoint, outside))
      ensures held == if ok then old(held) + [old(hashPendingCheckpoint)] else old(held)
      ensures hashPendingCheckpoint ==
        if ok || old(hashPendingCheckpoint in mapBlockIndex
                     && !StrictlyDescends(mapBlockIndex, hashPendingCheckpoint, hashSyncCheckpoint)) then 0
        else old(hashPendingCheckpoint)
      ensures hashInvalidCheckpoint ==
        if old(hashPendingCheckpoint != 0 && Blamed(mapBlockIndex, hashPendingCheckpoint, hashSyncCheckpoint, outside))
        then old(hashPendingCheckpoint) else old(hashInvalidCheckpoint)
    {
      hide Valid, OnOnePath, Descends, WellFormed, StrictlyDescends, Conflicts;
      ValidFacts();
      Apart(mapBlockIndex, hashPendingCheckpoint, hashSyncCheckpoint);
      if hashPendingCheckpoint == 0 || hashPendingCheckpoint !in mapBlockIndex { return false; }
      var valid := ValidateSyncCheckpoint(hashPendingCheckpoint);
      if !valid {
        hashPendingCheckpoint := 0;
        return false;
      }
      if !outside.inMain {
        if !outside.readOk { return false; }
        if !outside.setBestOk {
          hashInvalidCheckpoint := hashPendingCheckpoint;
          return false;
        }
      }
      var written := WriteSyncCheckpoint(hashPendingCheckpoint, outside);
      if !written { return false; }
      hashPendingCheckpoint := 0;
      return true;
    }

    lemma ValidFacts()
      ensures Valid() <==> OnOnePath(mapBlockIndex, held) && held != [] && held[|held| - 1] == hashSyncCheckpoint
      ensures Valid() ==> WellFormed(mapBlockIndex) && hashSyncCheckpoint in mapBlockIndex
    {
    }

    /** A received checkpoint message; one for an unknown block becomes the pending checkpoint. */
    method ProcessSyncCheckpoint(hashCheckpoint: Hash, signatureOk: bool, outside: Outside) returns (ok: bool)
      requires Valid()
      modifies this`hashSyncCheckpoint, this`hashPendingCheckpoint, this`hashInvalidCheckpoint, this`held
      ensures Valid()
      ensures ok == (signatureOk && Adopted(mapBlockIndex, hashCheckpoint, old(hashSyncCheckpoint), outside))
      ensures held == if ok then old(held) + [hashCheckpoint] else old(held)
      ensures hashPendingCheckpoint ==
        if ok then 0
        else if signatureOk && hashCheckpoint !in mapBlockIndex then hashCheckpoint
        else old(hashPendingCheckpoint)
      ensures hashInvalidCheckpoint ==
        if signatureOk && Blamed(mapBlockIndex, hashCheckpoint, old(hashSyncCheckpoint), outside) then hashCheckpoint
        else old(hashInvalidCheckpoint)
    {
      hide Valid, OnOnePath, Descends, WellFormed, StrictlyDescends, Conflicts;
      ValidFacts();
      Apart(mapBlockIndex, hashCheckpoint, hashSyncCheckpoint);
      if !signatureOk { return false; }
      if hashCheckpoint !in mapBlockIndex {
        hashPendingCheckpoint := hashCheckpoint;
        return false;
      }
      var valid := ValidateSyncCheckpoint(hashCheckpoint);
      if !valid { return false; }
      if !outside.inMain {
        if !outside.readOk { return false; }
        if !outside.setBestOk {
          hashInvalidCheckpoint := hashCheckpoint;
          return false;
        }
      }
      var written := WriteSyncCheckpoint(hashCheckpoint, outside);
      if !written { return false; }
      hashPendingCheckpoint := 0;
      return true;
    }

    /** Whether a block on top of pindexPrev may be accepted. */
    method CheckSync(fTestNet: bool, hashBlock: Hash, pindexPrev: Hash) returns (ok: bool)
      requires WellFormed(mapBlockIndex) && hashSyncCheckpoint in mapBlockIndex && pindexPrev in mapBlockIndex
      ensures ok <==> fTestNet || PassesSync(mapBlockIndex, hashSyncCheckpoint, hashBlock, pindexPrev)
    {
      if fTestNet { return true; }
      var nHeight := mapBlockIndex[pindexPrev].nHeight + 1;
      assert hashSyncCheckpoint in mapBlockIndex;
      HeightsAtLeastZero(mapBlockIndex, hashSyncCheckpoint);
      var nSync := mapBlockIndex[hashSyncCheckpoint].nHeight;
      if nHeight > nSync {
        var traced, pindex := TraceBack(pindexPrev, nSync);
        if !traced { return false; }
        if mapBlockIndex[pindex].nHeight < nSync || pindex != hashSyncCheckpoint { return false; }
      }
      if nHeight == nSync && hashBlock != hashSyncCheckpoint { return false; }
      if nHeight < nSync && hashBlock !in mapBlockIndex { return false; }
      return true;
    }

    /** A new block joins the index if CheckSync passes it or is not enforced. Where it is enforced, the block is above
        the checkpoint and descends from every checkpoint ever held. */
    method AcceptBlock(strict: bool, fTestNet: bool, hash: Hash, prev: Hash) returns (ok: bool)
      requires Valid() && prev in mapBlockIndex && hash !in mapBlockIndex
      modifies this`mapBlockIndex
      ensures Valid()
      ensures mapBlockIndex == if ok then Grown(old(mapBlockIndex), hash, prev) else old(mapBlockIndex)
      ensures ok && strict && !fTestNet ==>
        mapBlockIndex[hash].nHeight > mapBlockIndex[hashSyncCheckpoint].nHeight &&
          DescendsFromAllOf(mapBlockIndex, held, hash)
      ensures ok <==> !strict || fTestNet || old(Descends(mapBlockIndex, prev, hashSyncCheckpoint))
    {
      hide Valid, OnOnePath, Descends, WellFormed, DescendsFromAllOf, PassesSync;
      ValidFacts();
      ok := CheckSync(fTestNet, hash, prev);
      NewBlockPasses(mapBlockIndex, hashSyncCheckpoint, hash, prev);
      if strict && !ok { return; }
      PassedDescendsFromAll(mapBlockIndex, held, hashSyncCheckpoint, hash, prev);
      mapBlockIndex := Grown(mapBlockIndex, hash, prev);
      ok := true;
      ValidFacts();
    }

    method Perform(op: Op) returns (ok: bool)
      requires Valid()
      modifies this
      ensures Valid() && old(S()).Ok() && S() == Next(old(S()), op) && ok == Succeeded(old(S()), op)
    {
      hide OnOnePath, StrictlyDescends, Descends, WellFormed, Conflicts, PassesSync, Adopted, Blamed, Grown;
      ok := false;
      match op
      case AcceptBlock(strict, fTestNet, hash, prev) =>
        if prev in mapBlockIndex && hash !in mapBlockIndex { ok := AcceptBlock(strict, fTestNet, hash, prev); }
      case Process(checkpoint, signatureOk, outside) =>
        ok := ProcessSyncCheckpoint(checkpoint, signatureOk, outside);
      case AcceptPending(outside) =>
        ok := AcceptPendingSyncCheckpoint(outside);
    }

    /** Any run has exactly the answers and the outcome of the steps; all checkpoints ever held stay on one root path
        and none is forgotten. */
    method Run(ops: seq<Op>) returns (answers: seq<bool>)
      requires Valid()
      modifies this
      ensures Valid() && old(S()).Ok() && S() == After(old(S()), ops, |ops|) && old(held) <= held
      ensures |answers| == |ops|
      ensures forall n :: 0 <= n < |ops| ==> (answers[n] <==> Succeeded(After(old(S()), ops, n), ops[n]))
    {
      hide OnOnePath, Next, Succeeded;
      answers := [];
      ghost var s := S();
      for n := 0 to |ops|
        invariant Valid() && s.Ok() && S() == After(s, ops, n) && |answers| == n
        invariant forall k :: 0 <= k < n ==> (answers[k] <==> Succeeded(After(s, ops, k), ops[k]))
      {
        var ok := Perform(ops[n]);
        answers := answers + [ok];
      }
      NothingForgotten(s, ops, 0, |ops|);
    }
  }
}
