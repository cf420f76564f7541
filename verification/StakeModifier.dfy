/** The stake modifier of src/kernel.cpp: 64 rounds of selection from a growing time window. */
module StakeModifier {
  import opened Bits
  import opened PowersOfTwo

  const MODIFIER_INTERVAL := 10 * 60
  const MODIFIER_INTERVAL_RATIO := 3

  type Hash = nat

  type Binary = b: nat | b <= 1

  datatype Block = Block(
    hash: Hash, time: nat, hashProof: Hash, isProofOfStake: bool, entropyBit: Binary,
    generatedModifier: bool, nStakeModifier: nat)

  /** An entry of the candidate list, ordered by time and then by hash. */
  datatype Candidate = Candidate(time: int, hash: Hash)

  predicate Before(a: Candidate, b: Candidate) {
    a.time < b.time || (a.time == b.time && a.hash < b.hash)
  }

  ghost predicate Sorted(s: seq<Candidate>) {
    forall i, j :: 0 <= i < j < |s| ==> Before(s[i], s[j])
  }

  /** The hash that decides a round. The division by 2^32 favours proof-of-stake blocks. */
  function SelectionHash(hashFn: (Hash, nat) -> Hash, b: Block, prev: nat): Hash {
    var h := hashFn(b.hashProof, prev);
    if b.isProofOfStake then h / 0x1_0000_0000 else h
  }

  function Section(nSection: nat): nat
    requires nSection < 64
  {
    MODIFIER_INTERVAL * 63 / (63 + (63 - nSection) * (MODIFIER_INTERVAL_RATIO - 1))
  }

  function Sections(n: nat): nat
    requires n <= 64
  {
    if n == 0 then 0 else Sections(n - 1) + Section(n - 1)
  }

  /** The last section is a modifier interval, three times the first, and no section is shorter than the one before; the
      lengths are as the terms of a harmonic progression, in whole seconds. */
  lemma SectionLengths(i: nat, j: nat)
    requires i <= j < 64
    ensures Section(0) == 200 && Section(63) == 600 && Section(i) <= Section(j)
    ensures Section(i) * (189 - 2 * i) <= 63 * 600 < (Section(i) + 1) * (189 - 2 * i)
  {
    var a, b := 63 + (63 - i) * 2, 63 + (63 - j) * 2;
    QuotientShrinks(37_800, a, b);
    QuotientExact(37_800, a);
  }

  lemma QuotientExact(n: nat, a: nat)
    requires a >= 1
    ensures n / a * a <= n < (n / a + 1) * a
  {
    assert n == n / a * a + n % a;
  }

  lemma QuotientShrinks(n: nat, a: nat, b: nat)
    requires 1 <= b <= a
    ensures n / a <= n / b
  {
    var q, k := n / a, n / b;
    assert q * (a - b) >= 0;
    ProductGrows(k + 1, q, b);
  }

  lemma ProductGrows(i: int, j: int, b: nat)
    ensures i <= j ==> i * b <= j * b
  {
    if i <= j { assert (j - i) * b >= 0; }
  }

  /** Every candidate is known to the block index. */
  ghost predicate Indexed(cands: seq<Candidate>, index: map<Hash, Block>) {
    forall i :: 0 <= i < |cands| ==>
      cands[i].hash in index && index[cands[i].hash].time == cands[i].time && index[cands[i].hash].hash == cands[i].hash
  }

  /** Candidate i is what a round picks: among the candidates not yet selected, the least selection hash up to
      the stop time, the earlier of two equal ones, or the earliest candidate if none is up to that time. */
  ghost predicate IsPick(cands: seq<Candidate>, index: map<Hash, Block>, hashFn: (Hash, nat) -> Hash, prev: nat,
                         selected: set<Hash>, stop: int, i: int)
    requires Indexed(cands, index)
  {
    && 0 <= i < |cands| && cands[i].hash !in selected
    && (cands[i].time > stop ==> forall j :: 0 <= j < i ==> cands[j].hash in selected)
    && (cands[i].time <= stop ==> forall j ::
          0 <= j < |cands| && cands[j].hash !in selected && cands[j].time <= stop ==>
          var a := SelectionHash(hashFn, index[cands[i].hash], prev);
          var b := SelectionHash(hashFn, index[cands[j].hash], prev);
          a < b || (a == b && i <= j))
  }

  lemma PickUnique(cands: seq<Candidate>, index: map<Hash, Block>, hashFn: (Hash, nat) -> Hash, prev: nat,
                   selected: set<Hash>, stop: int, i: int, j: int)
    requires Indexed(cands, index) && Sorted(cands)
    requires IsPick(cands, index, hashFn, prev, selected, stop, i)
    requires IsPick(cands, index, hashFn, prev, selected, stop, j)
    ensures i == j
  {
  }

  /** Candidate i goes before j, in terms of the hashes themselves. None up to the stop time means the earlier one.
      Otherwise, of candidates of one kind the lesser hash wins, with 32 bits dropped for stake; a work block wins over
      a stake block only with a hash 2^32 times smaller. The order decides between equals. */
  ghost predicate Favoured(cands: seq<Candidate>, index: map<Hash, Block>, hashFn: (Hash, nat) -> Hash, prev: nat,
                           stop: int, i: int, j: int)
    requires Indexed(cands, index) && 0 <= i < |cands| && 0 <= j < |cands|
  {
    if cands[i].time > stop then cands[j].time > stop && i < j
    else
      var a, b := index[cands[i].hash], index[cands[j].hash];
      var x, y := hashFn(a.hashProof, prev), hashFn(b.hashProof, prev);
      cands[j].time <= stop ==>
        match (a.isProofOfStake, b.isProofOfStake)
        case (false, false) => x < y || (x == y && i < j)
        case (true, true) => x / 0x1_0000_0000 < y / 0x1_0000_0000 || (x / 0x1_0000_0000 == y / 0x1_0000_0000 && i < j)
        case (false, true) => (x + 1) * 0x1_0000_0000 <= y || (x == y / 0x1_0000_0000 && i < j)
        case (true, false) => x < y * 0x1_0000_0000 || (x / 0x1_0000_0000 == y && i < j)
  }

  /** Of the candidates left, a round picks the one that goes before every other. */
  lemma PickFavours(cands: seq<Candidate>, index: map<Hash, Block>, hashFn: (Hash, nat) -> Hash, prev: nat,
                    selected: set<Hash>, stop: int, i: int, j: int)
    requires Indexed(cands, index) && Sorted(cands) && IsPick(cands, index, hashFn, prev, selected, stop, i)
    requires 0 <= j < |cands| && j != i && cands[j].hash !in selected
    ensures Favoured(cands, index, hashFn, prev, stop, i, j)
  {
  }

  /** The division favours stake, but not always: a work block loses to every stake block exactly if its hash is at
      least 2^224. */
  lemma StakeFavoured(work: Hash)
    ensures (forall stake: Hash :: stake < POW_2_256 ==> stake / 0x1_0000_0000 < work) <==>
      work >= POW_2_256 / 0x1_0000_0000
  {
    if work < POW_2_256 / 0x1_0000_0000 {
      var stake := POW_2_256 - 1;
      assert stake / 0x1_0000_0000 >= work;
    }
  }

  const POW_2_256 := 0x1_0000_0000_0000_0000_0000_0000_0000_0000_0000_0000_0000_0000_0000_0000_0000_0000

  /** The entropy bits and the order in which blocks are selected. */
  ghost predicate Selection(cands: seq<Candidate>, index: map<Hash, Block>, hashFn: (Hash, nat) -> Hash, prev: nat,
                            start: int, picks: seq<int>)
    requires Indexed(cands, index)
  {
    |picks| <= 64 && forall r :: 0 <= r < |picks| ==> RoundOk(cands, index, hashFn, prev, start, picks, r)
  }

  /** Round r picks by its stop time among the candidates not picked before. */
  ghost predicate RoundOk(cands: seq<Candidate>, index: map<Hash, Block>, hashFn: (Hash, nat) -> Hash, prev: nat,
                          start: int, picks: seq<int>, r: int)
    requires Indexed(cands, index) && 0 <= r < |picks| <= 64
  {
    IsPick(cands, index, hashFn, prev, Chosen(cands, picks[..r]), start + Sections(r + 1), picks[r])
  }

  /** The hashes of the candidates at some places. */
  ghost function Chosen(cands: seq<Candidate>, picks: seq<int>): set<Hash> {
    set k | 0 <= k < |picks| && 0 <= picks[k] < |cands| :: cands[picks[k]].hash
  }

  /** What pindexSelected is without a selection. */
  const NO_BLOCK := Block(0, 0, 0, false, 0, false, 0)

  method SelectBlockFromCandidates(vSorted: seq<Candidate>, mapSelected: set<Hash>, stop: int, prev: nat,
                                   index: map<Hash, Block>, hashFn: (Hash, nat) -> Hash)
    returns (fSelected: bool, pindexSelected: Block, ghost i: int)
    requires Sorted(vSorted)
    ensures fSelected ==> 0 <= i < |vSorted| && vSorted[i].hash in index && pindexSelected == index[vSorted[i].hash]
    ensures Indexed(vSorted, index) ==>
      (fSelected <==> exists k :: 0 <= k < |vSorted| && vSorted[k].hash !in mapSelected)
    ensures Indexed(vSorted, index) && fSelected ==>
      IsPick(vSorted, index, hashFn, prev, mapSelected, stop, i)
  {
    fSelected := false;
    pindexSelected := NO_BLOCK;
    i := -1;
    var hashBest := 0;
    var k := 0;
    while k < |vSorted|
      invariant 0 <= k <= |vSorted|
      invariant fSelected ==> 0 <= i < |vSorted| && vSorted[i].hash in index && pindexSelected == index[vSorted[i].hash]
      invariant Indexed(vSorted, index) && !fSelected ==> forall j :: 0 <= j < k ==> vSorted[j].hash in mapSelected
      invariant Indexed(vSorted, index) && fSelected ==>
        BestSoFar(vSorted, index, hashFn, prev, mapSelected, stop, i, k)
      invariant Indexed(vSorted, index) && fSelected ==>
        hashBest == SelectionHash(hashFn, pindexSelected, prev)
    {
      var item := vSorted[k];
      if item.hash !in index { return false, NO_BLOCK, -1; }
      var pindex := index[item.hash];
      if fSelected && pindex.time > stop { break; }
      if pindex.hash !in mapSelected {
        var hashSelection := SelectionHash(hashFn, pindex, prev);
        if fSelected && hashSelection < hashBest {
          hashBest := hashSelection;
          pindexSelected := pindex;
          i := k;
        } else if !fSelected {
          fSelected := true;
          hashBest := hashSelection;
          pindexSelected := pindex;
          i := k;
        }
      }
      k := k + 1;
    }
  }

  /** The state of the loop: candidate i wins among the first k. */
  ghost predicate BestSoFar(cands: seq<Candidate>, index: map<Hash, Block>, hashFn: (Hash, nat) -> Hash, prev: nat,
                            selected: set<Hash>, stop: int, i: int, k: nat)
    requires Indexed(cands, index)
  {
    && 0 <= i < k <= |cands| && cands[i].hash !in selected
    && (cands[i].time > stop ==> forall j :: 0 <= j < k && j != i ==> cands[j].hash in selected || j > i)
    && (cands[i].time <= stop ==> forall j :: 0 <= j < k && cands[j].hash !in selected ==>
          cands[j].time <= stop &&
          var a := SelectionHash(hashFn, index[cands[i].hash], prev);
          var b := SelectionHash(hashFn, index[cands[j].hash], prev);
          a < b || (a == b && i <= j))
  }

  // ----- gathering and sorting the candidates

  /** The blocks of a chain by height; the block above may look down by pprev, and -1 stands for none. */
  type Chain = seq<Block>

  ghost predicate DistinctHashes(chain: Chain) {
    forall i, j :: 0 <= i < j < |chain| ==> chain[i].hash != chain[j].hash
  }

  ghost predicate InIndex(chain: Chain, index: map<Hash, Block>) {
    forall i :: 0 <= i < |chain| ==> chain[i].hash in index && index[chain[i].hash] == chain[i]
  }

  /** The last block up to height h that generated a modifier, or -1. */
  function LastGenerator(chain: Chain, h: int): (g: int)
    requires -1 <= h < |chain|
    ensures -1 <= g <= h && (g >= 0 ==> chain[g].generatedModifier)
    ensures forall k :: g < k <= h ==> !chain[k].generatedModifier
  {
    if h == -1 || chain[h].generatedModifier then h else LastGenerator(chain, h - 1)
  }

  method GetLastStakeModifier(chain: Chain, h: int) returns (ok: bool, nStakeModifier: nat, nModifierTime: nat)
    requires -1 <= h < |chain|
    ensures ok <==> LastGenerator(chain, h) >= 0
    ensures ok ==> var g := LastGenerator(chain, h);
      nStakeModifier == chain[g].nStakeModifier && nModifierTime == chain[g].time
  {
    if h == -1 { return false, 0, 0; }
    var pindex := h;
    while pindex > 0 && !chain[pindex].generatedModifier
      invariant 0 <= pindex <= h
      invariant LastGenerator(chain, pindex) == LastGenerator(chain, h)
    {
      pindex := pindex - 1;
    }
    if !chain[pindex].generatedModifier { return false, 0, 0; }
    return true, chain[pindex].nStakeModifier, chain[pindex].time;
  }

  method GetStakeModifierSelectionInterval() returns (nSelectionInterval: nat)
    ensures nSelectionInterval == Sections(64)
  {
    nSelectionInterval := 0;
    for nSection := 0 to 64
      invariant nSelectionInterval == Sections(nSection)
    {
      nSelectionInterval := nSelectionInterval + Section(nSection);
    }
  }

  function CandidateOf(b: Block): Candidate {
    Candidate(b.time, b.hash)
  }

  function CandidatesOf(blocks: seq<Block>): (r: seq<Candidate>)
    ensures |r| == |blocks| && forall i :: 0 <= i < |r| ==> r[i] == CandidateOf(blocks[i])
  {
    seq(|blocks|, i requires 0 <= i < |blocks| => CandidateOf(blocks[i]))
  }

  /** The lowest height from which all blocks up to h are at or after the start of the interval. */
  function FirstCandidate(chain: Chain, h: int, start: int): (f: int)
    requires -1 <= h < |chain|
    ensures 0 <= f <= h + 1 && (forall k :: f <= k <= h ==> chain[k].time >= start)
    ensures f > 0 ==> chain[f - 1].time < start
  {
    if h == -1 then 0 else if chain[h].time < start then h + 1 else FirstCandidate(chain, h - 1, start)
  }

  method Gather(chain: Chain, h: int, start: int) returns (v: seq<Candidate>)
    requires 0 <= h < |chain|
    ensures v == CandidatesOf(chain[FirstCandidate(chain, h, start)..h + 1])
  {
    v := [];
    var pindex := h;
    while pindex >= 0 && chain[pindex].time >= start
      invariant -1 <= pindex <= h
      invariant FirstCandidate(chain, pindex, start) == FirstCandidate(chain, h, start)
      invariant |v| == h - pindex && forall i :: 0 <= i < |v| ==> v[i] == CandidateOf(chain[h - i])
    {
      v := v + [CandidateOf(chain[pindex])];
      pindex := pindex - 1;
    }
    v := Reversed(v);
  }

  method Reversed(s: seq<Candidate>) returns (r: seq<Candidate>)
    ensures |r| == |s| && forall k :: 0 <= k < |s| ==> r[k] == s[|s| - 1 - k]
  {
    r := [];
    var i := 0;
    while i < |s|
      invariant 0 <= i <= |s| && |r| == i && forall k :: 0 <= k < i ==> r[k] == s[i - 1 - k]
    {
      r := [s[i]] + r;
      i := i + 1;
    }
  }

  ghost predicate WeaklySorted(s: seq<Candidate>) {
    forall i, j :: 0 <= i < j < |s| ==> !Before(s[j], s[i])
  }

  lemma InsertSorted(s: seq<Candidate>, i: nat, x: Candidate)
    requires WeaklySorted(s) && i <= |s|
    requires (forall k :: 0 <= k < i ==> !Before(x, s[k])) && (forall k :: i <= k < |s| ==> Before(x, s[k]))
    ensures WeaklySorted(s[..i] + [x] + s[i..])
    ensures multiset(s[..i] + [x] + s[i..]) == multiset(s) + multiset{x}
  {
    assert s == s[..i] + s[i..];
  }

  /** std::sort on pairs. */
  method Sort(s: seq<Candidate>) returns (r: seq<Candidate>)
    ensures WeaklySorted(r) && multiset(r) == multiset(s)
  {
    r := [];
    var n := 0;
    while n < |s|
      invariant 0 <= n <= |s| && WeaklySorted(r) && multiset(r) == multiset(s[..n])
    {
      var i := |r|;
      while i > 0 && Before(s[n], r[i - 1])
        invariant 0 <= i <= |r| && forall k :: i <= k < |r| ==> Before(s[n], r[k])
      {
        i := i - 1;
      }
      InsertSorted(r, i, s[n]);
      assert s[..n + 1] == s[..n] + [s[n]];
      r := r[..i] + [s[n]] + r[i..];
      n := n + 1;
    }
    assert s[..n] == s;
  }

  lemma WithoutFirst(s: seq<Candidate>)
    requires s != []
    ensures multiset(s[1..]) == multiset(s) - multiset{s[0]}
  {
    assert s == [s[0]] + s[1..];
  }

  /** Sorting forgets the order of gathering: only one sorted list has given elements. */
  lemma {:induction false} SortedUnique(a: seq<Candidate>, b: seq<Candidate>)
    requires Sorted(a) && Sorted(b) && multiset(a) == multiset(b)
    ensures a == b
    decreases |a|
  {
    if a == [] {
      assert |multiset(b)| == 0;
    } else {
      assert a[0] in multiset(b) && |multiset(a)| == |multiset(b)|;
      assert b[0] in multiset(a);
      var i :| 0 <= i < |b| && b[i] == a[0];
      var j :| 0 <= j < |a| && a[j] == b[0];
      assert i == 0;
      WithoutFirst(a);
      WithoutFirst(b);
      SortedUnique(a[1..], b[1..]);
      assert a == [a[0]] + a[1..] && b == [b[0]] + b[1..];
    }
  }

  lemma CountTwice(r: seq<Candidate>, i: nat, j: nat)
    requires i < j < |r| && r[i] == r[j]
    ensures multiset(r)[r[i]] >= 2
  {
    assert r == r[..i] + [r[i]] + r[i + 1..];
    assert r[i + 1..][j - i - 1] == r[i];
    assert r[i] in multiset(r[i + 1..]);
  }

  lemma {:induction false} CountOnce(s: seq<Candidate>, x: Candidate)
    requires forall i, j :: 0 <= i < j < |s| ==> s[i] != s[j]
    ensures multiset(s)[x] <= 1
    decreases |s|
  {
    if s != [] {
      assert s == [s[0]] + s[1..];
      CountOnce(s[1..], x);
      if x == s[0] { assert x !in s[1..]; }
    }
  }

  ghost predicate DistinctCandidates(r: seq<Candidate>) {
    forall i, j :: 0 <= i < j < |r| ==> r[i].hash != r[j].hash
  }

  /** The sorted candidates are distinct and known to the index. */
  lemma SortedCandidates(r: seq<Candidate>, blocks: seq<Block>, index: map<Hash, Block>)
    requires WeaklySorted(r) && multiset(r) == multiset(CandidatesOf(blocks))
    requires DistinctHashes(blocks) && InIndex(blocks, index)
    ensures Indexed(r, index) && DistinctCandidates(r) && Sorted(r) && |r| == |blocks|
  {
    var s := CandidatesOf(blocks);
    assert |multiset(r)| == |multiset(s)|;
    forall i | 0 <= i < |r| ensures exists k :: 0 <= k < |blocks| && r[i] == CandidateOf(blocks[k]) {
      assert r[i] in multiset(s);
      var k :| 0 <= k < |s| && s[k] == r[i];
      assert r[i] == CandidateOf(blocks[k]);
    }
    forall i, j | 0 <= i < j < |r| ensures r[i].hash != r[j].hash {
      if r[i] == r[j] {
        CountTwice(r, i, j);
        CountOnce(s, r[i]);
      }
    }
  }

  // ----- the rounds

  lemma ChosenIffPicked(cands: seq<Candidate>, picks: seq<int>, k: int)
    requires DistinctCandidates(cands) && 0 <= k < |cands| && forall r :: 0 <= r < |picks| ==> 0 <= picks[r] < |cands|
    ensures cands[k].hash in Chosen(cands, picks) <==> k in picks
  {
    if cands[k].hash in Chosen(cands, picks) {
      var r :| 0 <= r < |picks| && 0 <= picks[r] < |cands| && cands[picks[r]].hash == cands[k].hash;
      assert picks[r] == k;
    }
    if k in picks {
      var r :| 0 <= r < |picks| && picks[r] == k;
    }
  }

  /** Fewer picks than candidates leave one over. */
  lemma {:induction false} OneLeft(picks: seq<int>, n: nat) returns (k: nat)
    requires |picks| < n
    ensures k < n && k !in picks
    decreases n
  {
    if n - 1 !in picks {
      k := n - 1;
    } else {
      var i :| 0 <= i < |picks| && picks[i] == n - 1;
      var rest := picks[..i] + picks[i + 1..];
      k := OneLeft(rest, n - 1);
      assert picks == picks[..i] + [n - 1] + picks[i + 1..];
    }
  }

  lemma ChosenAppend(cands: seq<Candidate>, picks: seq<int>, i: int)
    requires 0 <= i < |cands|
    ensures Chosen(cands, picks + [i]) == Chosen(cands, picks) + {cands[i].hash}
  {
    var longer := picks + [i];
    forall h ensures h in Chosen(cands, longer) <==> h in Chosen(cands, picks) + {cands[i].hash} {
      if h in Chosen(cands, picks) {
        var k :| 0 <= k < |picks| && 0 <= picks[k] < |cands| && h == cands[picks[k]].hash;
        assert longer[k] == picks[k];
      }
      if h == cands[i].hash { assert longer[|picks|] == i; }
    }
  }

  /** Bit r is the entropy bit of the block picked in round r, and all higher bits are zero. */
  ghost predicate BitsOf(m: nat, cands: seq<Candidate>, index: map<Hash, Block>, picks: seq<int>) {
    forall k: nat :: Bit(m, k) ==
      if k < |picks| && 0 <= picks[k] < |cands| && cands[picks[k]].hash in index
      then index[cands[picks[k]].hash].entropyBit else 0
  }

  lemma BitsAppend(m: nat, cands: seq<Candidate>, index: map<Hash, Block>, picks: seq<int>, i: int)
    requires BitsOf(m, cands, index, picks) && 0 <= i < |cands| && cands[i].hash in index
    ensures BitsOf(Or(m, ShiftLeft(index[cands[i].hash].entropyBit, |picks|)), cands, index, picks + [i])
  {
    var b := index[cands[i].hash].entropyBit;
    var longer := picks + [i];
    forall k: nat
      ensures Bit(Or(m, ShiftLeft(b, |picks|)), k) ==
        if k < |longer| && 0 <= longer[k] < |cands| && cands[longer[k]].hash in index
        then index[cands[longer[k]].hash].entropyBit else 0
    {
      BitOr(m, ShiftLeft(b, |picks|), k);
      BitShifted(b, |picks|, k);
      assert k < |picks| ==> longer[k] == picks[k];
    }
  }

  ghost predicate Rounds(cands: seq<Candidate>, index: map<Hash, Block>, hashFn: (Hash, nat) -> Hash, prev: nat,
                         start: int, picks: seq<int>, m: nat)
    requires Indexed(cands, index)
  {
    && Selection(cands, index, hashFn, prev, start, picks) && BitsOf(m, cands, index, picks)
    && (forall r :: 0 <= r < |picks| ==> 0 <= picks[r] < |cands|)
    && (forall i, j :: 0 <= i < j < |picks| ==> picks[i] != picks[j])
  }

  lemma SelectionNext(cands: seq<Candidate>, index: map<Hash, Block>, hashFn: (Hash, nat) -> Hash, prev: nat,
                      start: int, picks: seq<int>, i: int)
    requires Indexed(cands, index) && Selection(cands, index, hashFn, prev, start, picks) && |picks| < 64
    requires IsPick(cands, index, hashFn, prev, Chosen(cands, picks), start + Sections(|picks| + 1), i)
    ensures Selection(cands, index, hashFn, prev, start, picks + [i])
  {
    hide RoundOk, IsPick, Indexed;
    forall r | 0 <= r < |picks| + 1 ensures RoundOk(cands, index, hashFn, prev, start, picks + [i], r) {
      RoundAppended(cands, index, hashFn, prev, start, picks, i, r);
    }
  }

  lemma RoundAppended(cands: seq<Candidate>, index: map<Hash, Block>, hashFn: (Hash, nat) -> Hash, prev: nat,
                      start: int, picks: seq<int>, i: int, r: nat)
    requires Indexed(cands, index) && r <= |picks| < 64
    requires r < |picks| ==> RoundOk(cands, index, hashFn, prev, start, picks, r)
    requires r == |picks| ==> IsPick(cands, index, hashFn, prev, Chosen(cands, picks), start + Sections(r + 1), i)
    ensures RoundOk(cands, index, hashFn, prev, start, picks + [i], r)
  {
    hide IsPick, Chosen, Sections, Indexed;
    var longer := picks + [i];
    assert longer[..r] == picks[..r];
    assert r == |picks| ==> picks[..r] == picks;
  }

  /** A pick is a candidate not picked before. */
  lemma PickFresh(cands: seq<Candidate>, index: map<Hash, Block>, hashFn: (Hash, nat) -> Hash, prev: nat,
                  picks: seq<int>, stop: int, i: int)
    requires Indexed(cands, index) && DistinctCandidates(cands)
    requires forall r :: 0 <= r < |picks| ==> 0 <= picks[r] < |cands|
    requires IsPick(cands, index, hashFn, prev, Chosen(cands, picks), stop, i)
    ensures 0 <= i < |cands| && i !in picks && cands[i].hash in index
  {
    ChosenIffPicked(cands, picks, i);
  }

  lemma RoundNext(cands: seq<Candidate>, index: map<Hash, Block>, hashFn: (Hash, nat) -> Hash, prev: nat,
                  start: int, picks: seq<int>, m: nat, i: int)
    requires Indexed(cands, index) && DistinctCandidates(cands) && Rounds(cands, index, hashFn, prev, start, picks, m)
    requires |picks| < 64
    requires IsPick(cands, index, hashFn, prev, Chosen(cands, picks), start + Sections(|picks| + 1), i)
    ensures Rounds(cands, index, hashFn, prev, start, picks + [i],
      Or(m, ShiftLeft(index[cands[i].hash].entropyBit, |picks|)))
  {
    PickFresh(cands, index, hashFn, prev, picks, start + Sections(|picks| + 1), i);
    BitsAppend(m, cands, index, picks, i);
    hide BitsOf, Selection, IsPick, Sections;
    SelectionNext(cands, index, hashFn, prev, start, picks, i);
  }

  lemma NoRounds(cands: seq<Candidate>, index: map<Hash, Block>, hashFn: (Hash, nat) -> Hash, prev: nat, start: int)
    requires Indexed(cands, index)
    ensures Rounds(cands, index, hashFn, prev, start, [], 0) && Chosen(cands, []) == {}
  {
    forall k: nat ensures Bit(0, k) == 0 { BitZero(k); }
  }

  lemma LeftOver(cands: seq<Candidate>, index: map<Hash, Block>, hashFn: (Hash, nat) -> Hash, prev: nat, start: int,
                 picks: seq<int>, m: nat)
    requires Indexed(cands, index) && DistinctCandidates(cands) && Rounds(cands, index, hashFn, prev, start, picks, m)
    requires |picks| < |cands|
    ensures exists k :: 0 <= k < |cands| && cands[k].hash !in Chosen(cands, picks)
  {
    var k := OneLeft(picks, |cands|);
    ChosenIffPicked(cands, picks, k);
  }

  lemma FromIndex(cands: seq<Candidate>, index: map<Hash, Block>, i: int)
    requires Indexed(cands, index) && 0 <= i < |cands|
    ensures cands[i].hash in index && index[cands[i].hash].hash == cands[i].hash
  {
  }

  /** The loop of ComputeNextStakeModifier: min(64, n) different blocks, none ever missing. */
  method SelectBlocks(vSorted: seq<Candidate>, start: int, prev: nat, index: map<Hash, Block>,
                      hashFn: (Hash, nat) -> Hash)
    returns (ok: bool, nStakeModifierNew: nat, ghost picks: seq<int>)
    requires Sorted(vSorted)
    ensures ok <==> |picks| == if |vSorted| < 64 then |vSorted| else 64
    ensures Indexed(vSorted, index) && DistinctCandidates(vSorted) ==>
      ok && |picks| == (if |vSorted| < 64 then |vSorted| else 64) &&
        Rounds(vSorted, index, hashFn, prev, start, picks, nStakeModifierNew)
  {
    hide Rounds, Sorted, Section, Indexed, DistinctCandidates, IsPick, Or, ShiftLeft;
    ghost var good := Indexed(vSorted, index) && DistinctCandidates(vSorted);
    ok, nStakeModifierNew, picks := true, 0, [];
    var nSelectionIntervalStop := start;
    var mapSelected: set<Hash> := {};
    var nRound := 0;
    if good { NoRounds(vSorted, index, hashFn, prev, start); }
    assert Sections(0) == 0;
    while nRound < (if |vSorted| < 64 then |vSorted| else 64)
      invariant ok && 0 <= nRound <= 64 && nRound <= |vSorted| && |picks| == nRound &&
        nSelectionIntervalStop == start + Sections(nRound)
      invariant good ==> mapSelected == Chosen(vSorted, picks)
      invariant good ==> Rounds(vSorted, index, hashFn, prev, start, picks, nStakeModifierNew)
    {
      assert Sections(nRound + 1) == Sections(nRound) + Section(nRound);
      nSelectionIntervalStop := nSelectionIntervalStop + Section(nRound);
      var fSelected, pindex;
      ghost var i;
      fSelected, pindex, i :=
        SelectBlockFromCandidates(vSorted, mapSelected, nSelectionIntervalStop, prev, index, hashFn);
      if good {
        LeftOver(vSorted, index, hashFn, prev, start, picks, nStakeModifierNew);
        assert 0 <= i < |vSorted|;
        FromIndex(vSorted, index, i);
        RoundNext(vSorted, index, hashFn, prev, start, picks, nStakeModifierNew, i);
        ChosenAppend(vSorted, picks, i);
      }
      if !fSelected { return false, 0, picks; }
      nStakeModifierNew := Or(nStakeModifierNew, ShiftLeft(pindex.entropyBit, nRound));
      mapSelected := mapSelected + {pindex.hash};
      picks := picks + [i];
      nRound := nRound + 1;
    }
  }

  /** The candidates, the start time and the previous modifier fix the picks and every bit of the result. */
  lemma {:induction false} PicksUnique(cands: seq<Candidate>, index: map<Hash, Block>, hashFn: (Hash, nat) -> Hash,
                                       prev: nat, start: int, picks: seq<int>, picks': seq<int>, n: nat)
    requires Indexed(cands, index) && Sorted(cands) && n <= |picks| == |picks'|
    requires Selection(cands, index, hashFn, prev, start, picks) && Selection(cands, index, hashFn, prev, start, picks')
    ensures picks[..n] == picks'[..n]
  {
    hide IsPick, Chosen, Sections, Sorted, Indexed;
    if n > 0 {
      PicksUnique(cands, index, hashFn, prev, start, picks, picks', n - 1);
      assert RoundOk(cands, index, hashFn, prev, start, picks, n - 1);
      assert RoundOk(cands, index, hashFn, prev, start, picks', n - 1);
      PickUnique(cands, index, hashFn, prev, Chosen(cands, picks[..n - 1]), start + Sections(n), picks[n - 1],
        picks'[n - 1]);
      assert picks[..n] == picks[..n - 1] + [picks[n - 1]] && picks'[..n] == picks'[..n - 1] + [picks'[n - 1]];
    }
  }

  /** Whom round r picks, in terms of the hashes: PickFavours, with the window up to the end of section r and against
      every candidate not picked before. */
  lemma RoundFavours(cands: seq<Candidate>, index: map<Hash, Block>, hashFn: (Hash, nat) -> Hash, prev: nat, start: int,
                     picks: seq<int>, m: nat, r: int, j: int)
    requires Indexed(cands, index) && DistinctCandidates(cands) && Sorted(cands)
    requires Rounds(cands, index, hashFn, prev, start, picks, m) && 0 <= r < |picks| <= 64
    requires 0 <= j < |cands| && j !in picks[..r] && j != picks[r]
    ensures Favoured(cands, index, hashFn, prev, start + Sections(r + 1), picks[r], j)
  {
    hide Indexed, Sorted, DistinctCandidates, Sections, Chosen, IsPick, Favoured;
    assert RoundOk(cands, index, hashFn, prev, start, picks, r);
    ChosenIffPicked(cands, picks[..r], j);
    PickFavours(cands, index, hashFn, prev, Chosen(cands, picks[..r]), start + Sections(r + 1), picks[r], j);
  }

  /** The result does not depend on the order in which the candidates were gathered. */
  lemma GatherOrderIrrelevant(blocks: seq<Block>, others: seq<Block>, index: map<Hash, Block>,
                              hashFn: (Hash, nat) -> Hash,
                              prev: nat, start: int, r: seq<Candidate>, picks: seq<int>, m: nat,
                              r': seq<Candidate>, picks': seq<int>, m': nat)
    requires DistinctHashes(blocks) && InIndex(blocks, index) && DistinctHashes(others) && InIndex(others, index)
    requires multiset(CandidatesOf(blocks)) == multiset(CandidatesOf(others))
    requires WeaklySorted(r) && multiset(r) == multiset(CandidatesOf(blocks)) && Indexed(r, index)
    requires WeaklySorted(r') && multiset(r') == multiset(CandidatesOf(others)) && Indexed(r', index)
    requires Rounds(r, index, hashFn, prev, start, picks, m) && Rounds(r', index, hashFn, prev, start, picks', m')
    requires |picks| == |picks'|
    ensures r == r' && picks == picks' && m == m'
  {
    SortedCandidates(r, blocks, index);
    SortedCandidates(r', others, index);
    SortedUnique(r, r');
    PicksUnique(r, index, hashFn, prev, start, picks, picks', |picks|);
    assert picks[..|picks|] == picks && picks'[..|picks|] == picks';
    BitsDetermine(m, m');
  }

  function IntervalStart(time: nat): int {
    time / MODIFIER_INTERVAL * MODIFIER_INTERVAL - Sections(64)
  }

  /** The last section ends at the last multiple of the modifier interval. */
  lemma WindowEnds(time: nat)
    ensures var end := IntervalStart(time) + Sections(64); end <= time < end + 600 && end % 600 == 0
  {
    hide Sections;
  }

  /** The modifier, bit by bit: the entropy bits of the blocks in the order of their selection, and nothing above. */
  lemma ModifierBits(cands: seq<Candidate>, index: map<Hash, Block>, hashFn: (Hash, nat) -> Hash, prev: nat, start: int,
                     picks: seq<int>, m: nat, k: nat)
    requires Indexed(cands, index) && Rounds(cands, index, hashFn, prev, start, picks, m)
    ensures k < |picks| ==> 0 <= picks[k] < |cands| && cands[picks[k]].hash in index
                            && m / Pow2(k) % 2 == index[cands[picks[k]].hash].entropyBit
    ensures k >= |picks| ==> m < Pow2(k)
  {
    hide Selection, Bit;
    BitDivides(m, k);
    if k >= |picks| {
      forall i: nat | i >= k ensures Bit(m, i) == 0 {}
      NoHighBits(m, k);
    }
  }

  /** A new modifier comes from the blocks of the selection interval that ends at height h. */
  ghost predicate Generated(chain: Chain, h: int, index: map<Hash, Block>, hashFn: (Hash, nat) -> Hash, prev: nat,
                            m: nat, cands: seq<Candidate>, picks: seq<int>)
    requires 0 <= h < |chain|
  {
    var start := IntervalStart(chain[h].time);
    && WeaklySorted(cands) && Indexed(cands, index)
    && multiset(cands) == multiset(CandidatesOf(chain[FirstCandidate(chain, h, start)..h + 1]))
    && |picks| == (if |cands| < 64 then |cands| else 64)
    && Rounds(cands, index, hashFn, prev, start, picks, m)
  }

  /** The chain up to height h and the previous modifier fix the next modifier. */
  lemma OneModifier(chain: Chain, h: int, index: map<Hash, Block>, hashFn: (Hash, nat) -> Hash, prev: nat, m: nat,
                    cands: seq<Candidate>, picks: seq<int>, m': nat, cands': seq<Candidate>, picks': seq<int>)
    requires 0 <= h < |chain| && DistinctHashes(chain) && InIndex(chain, index)
    requires Generated(chain, h, index, hashFn, prev, m, cands, picks)
    requires Generated(chain, h, index, hashFn, prev, m', cands', picks')
    ensures m == m' && cands == cands' && picks == picks'
  {
    hide Rounds, Indexed, WeaklySorted, FirstCandidate, CandidatesOf;
    var start := IntervalStart(chain[h].time);
    var blocks := chain[FirstCandidate(chain, h, start)..h + 1];
    hide IntervalStart;
    assert |cands| == |multiset(cands)| == |multiset(cands')| == |cands'|;
    GatherOrderIrrelevant(blocks, blocks, index, hashFn, prev, start, cands, picks, m, cands', picks', m');
  }

  /** The candidates are the blocks from which on no block up to height h is before the interval. */
  lemma CandidatesExactly(chain: Chain, h: int, index: map<Hash, Block>, hashFn: (Hash, nat) -> Hash, prev: nat, m: nat,
                          cands: seq<Candidate>, picks: seq<int>, j: int)
    requires 0 <= j <= h < |chain| && DistinctHashes(chain)
    requires Generated(chain, h, index, hashFn, prev, m, cands, picks)
    ensures Candidate(chain[j].time, chain[j].hash) in cands <==>
      forall k :: j <= k <= h ==> chain[k].time >= IntervalStart(chain[h].time)
  {
    hide Rounds, Indexed, WeaklySorted, IntervalStart;
    var start := IntervalStart(chain[h].time);
    var f := FirstCandidate(chain, h, start);
    var all := CandidatesOf(chain[f..h + 1]);
    var c := Candidate(chain[j].time, chain[j].hash);
    assert c in cands <==> c in multiset(cands);
    assert c in all <==> c in multiset(all);
    if j >= f { assert all[j - f] == c; }
  }

  method Generate(chain: Chain, h: int, index: map<Hash, Block>, hashFn: (Hash, nat) -> Hash, prev: nat)
    returns (ok: bool, nStakeModifierNew: nat, ghost cands: seq<Candidate>, ghost picks: seq<int>)
    requires 0 <= h < |chain| && DistinctHashes(chain) && InIndex(chain, index)
    ensures ok && Generated(chain, h, index, hashFn, prev, nStakeModifierNew, cands, picks)
  {
    hide Rounds, Indexed, Sorted, WeaklySorted, DistinctCandidates, FirstCandidate, Sections;
    var nSelectionInterval := GetStakeModifierSelectionInterval();
    var nSelectionIntervalStart := chain[h].time / MODIFIER_INTERVAL * MODIFIER_INTERVAL - nSelectionInterval;
    assert nSelectionIntervalStart == IntervalStart(chain[h].time);
    var v := Gather(chain, h, nSelectionIntervalStart);
    var vSorted := Sort(v);
    ghost var blocks := chain[FirstCandidate(chain, h, nSelectionIntervalStart)..h + 1];
    SortedCandidates(vSorted, blocks, index);
    cands := vSorted;
    hide IntervalStart;
    ok, nStakeModifierNew, picks := SelectBlocks(vSorted, nSelectionIntervalStart, prev, index, hashFn);
  }

  /** The next modifier for the chain that ends at height h. */
  method ComputeNextStakeModifier(chain: Chain, h: int, index: map<Hash, Block>, hashFn: (Hash, nat) -> Hash)
    returns (ok: bool, nStakeModifier: nat, fGenerated: bool, ghost cands: seq<Candidate>, ghost picks: seq<int>)
    requires -1 <= h < |chain| && DistinctHashes(chain) && InIndex(chain, index)
    ensures h == -1 ==> ok && nStakeModifier == 0 && fGenerated
    ensures h >= 0 ==> (ok <==> LastGenerator(chain, h) >= 0)
    ensures h >= 0 && ok ==> (fGenerated <==> chain[LastGenerator(chain, h)].time / 600 < chain[h].time / 600)
    ensures h >= 0 && ok && !fGenerated ==> nStakeModifier == chain[LastGenerator(chain, h)].nStakeModifier
    ensures h >= 0 && ok && fGenerated ==>
      Generated(chain, h, index, hashFn, chain[LastGenerator(chain, h)].nStakeModifier, nStakeModifier, cands, picks)
  {
    hide Generated, DistinctHashes, InIndex;
    cands, picks := [], [];
    if h == -1 { return true, 0, true, [], []; }
    var nModifierTime;
    fGenerated := false;
    ok, nStakeModifier, nModifierTime := GetLastStakeModifier(chain, h);
    if !ok { return; }
    if nModifierTime / MODIFIER_INTERVAL >= chain[h].time / MODIFIER_INTERVAL { return; }
    ok, nStakeModifier, cands, picks := Generate(chain, h, index, hashFn, nStakeModifier);
    fGenerated := true;
  }

  /** A block that generated a modifier at least a selection interval after the block at height "from". */
  predicate Late(chain: Chain, from: nat, k: int)
    requires from < |chain| && 0 <= k < |chain|
  {
    chain[k].generatedModifier && chain[k].time >= chain[from].time + Sections(64)
  }

  lemma NoneLate(chain: Chain, from: nat, k: nat)
    requires from < k <= |chain| && forall j :: from < j < k ==> !Late(chain, from, j)
    ensures forall j :: from < j < k && chain[j].generatedModifier ==> chain[j].time < chain[from].time + Sections(64)
  {
    forall j | from < j < k && chain[j].generatedModifier ensures chain[j].time < chain[from].time + Sections(64) {
      assert !Late(chain, from, j);
    }
  }

  lemma {:induction false} SectionsGrow(n: nat)
    requires n <= 64
    ensures Sections(n) >= n
  {
    if n > 0 {
      SectionsGrow(n - 1);
      var d := 63 + (63 - (n - 1)) * (MODIFIER_INTERVAL_RATIO - 1);
      assert 63 <= d <= 189;
      QuotientPositive(MODIFIER_INTERVAL * 63, d);
    }
  }

  lemma QuotientPositive(a: nat, d: nat)
    requires 1 <= d <= a
    ensures a / d >= 1
  {
  }

  /** The modifier a stake kernel has to use: that of the first late enough generator above the block, along
      pnext; none if the best block, the end of the chain, comes first. */
  method GetKernelStakeModifier(chain: Chain, from: nat)
    returns (ok: bool, nStakeModifier: nat, nStakeModifierHeight: int, nStakeModifierTime: int)
    requires from < |chain|
    ensures ok <==> exists k :: from < k < |chain| && Late(chain, from, k)
    ensures !ok ==> nStakeModifier == 0
    ensures ok ==> var k := nStakeModifierHeight;
      from < k < |chain| && Late(chain, from, k) && (forall j :: from < j < k ==> !Late(chain, from, j)) &&
      nStakeModifier == chain[k].nStakeModifier && nStakeModifierTime == chain[k].time
    ensures ok ==> nStakeModifierTime >= chain[from].time + Sections(64)
    ensures forall j :: from < j < (if ok then nStakeModifierHeight else |chain|) && chain[j].generatedModifier ==>
      chain[j].time < chain[from].time + Sections(64)
  {
    hide Sections;
    nStakeModifier := 0;
    nStakeModifierHeight, nStakeModifierTime := from, chain[from].time;
    var nInterval := GetStakeModifierSelectionInterval();
    SectionsGrow(64);
    var pindex := from;
    while nStakeModifierTime < chain[from].time + nInterval
      invariant from <= pindex < |chain| && nInterval == Sections(64)
      invariant from <= nStakeModifierHeight <= pindex && nStakeModifierTime == chain[nStakeModifierHeight].time
      invariant forall j :: from < j < pindex ==> !Late(chain, from, j)
      invariant if nStakeModifierTime >= chain[from].time + nInterval
                then nStakeModifierHeight == pindex > from && Late(chain, from, pindex)
                else pindex == from || !Late(chain, from, pindex)
      decreases |chain| - pindex
    {
      if pindex == |chain| - 1 {
        NoneLate(chain, from, |chain|);
        return false, 0, nStakeModifierHeight, nStakeModifierTime;
      }
      pindex := pindex + 1;
      if chain[pindex].generatedModifier {
        nStakeModifierHeight := pindex;
        nStakeModifierTime := chain[pindex].time;
      }
    }
    NoneLate(chain, from, pindex);
    return true, chain[pindex].nStakeModifier, nStakeModifierHeight, nStakeModifierTime;
  }
}
