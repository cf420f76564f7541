/** Stacking locks on memory pages (src/allocators.h). */
module LockedPages {

  import opened Bits
  import opened PowersOfTwo

  const ADDRESSES := 0x1_0000_0000_0000_0000

  /** A block of memory that is to stay locked. */
  datatype Range = Range(p: nat, size: nat)

  // ---------------------------------------------------------------- pages

  lemma Multiples(a: int, b: int, n: nat)
    requires n > 0 && a % n == 0 && b % n == 0 && a < b
    ensures a + n <= b
  {
    var i, j := a / n, b / n;
    assert a == i * n && b == j * n;
    if i >= j { Scaled(j, i, n); }
    Scaled(i + 1, j, n);
    assert (i + 1) * n == i * n + n;
  }

  lemma Scaled(i: int, j: int, n: nat)
    ensures i <= j ==> i * n <= j * n
  {
    if i <= j {
      assert (j - i) * n >= 0;
      assert j * n == i * n + (j - i) * n;
    }
  }

  lemma NextMultiple(a: int, n: nat)
    requires n > 0 && a % n == 0
    ensures (a + n) % n == 0
  {
    var i := a / n;
    assert a + n == i * n + n;
    Scale(i, n);
    Remainder(i + 1, n);
  }

  lemma Scale(i: int, n: nat)
    ensures (i + 1) * n == i * n + n
  {
  }

  lemma Remainder(q: int, n: nat)
    requires n > 0
    ensures q * n % n == 0
  {
    var r := q * n % n;
    var k := q * n / n;
    assert q * n == k * n + r;
    assert (q - k) * n == r;
    Small(q - k, n, r);
  }

  lemma Small(k: int, n: nat, r: int)
    requires k * n == r && 0 <= r < n
    ensures r == 0
  {
    if k > 0 { Scaled(1, k, n); }
    if k < 0 { Scaled(k, -1, n); }
  }

  /** The base of the page of an address. */
  function PageOf(pageSize: nat, address: nat): (page: nat)
    requires pageSize > 0
    ensures page <= address < page + pageSize && page % pageSize == 0
  {
    var q := address / pageSize;
    Remainder(q, pageSize);
    assert address - address % pageSize == q * pageSize;
    address - address % pageSize
  }

  /** The source's test of a page size. */
  predicate PowerOfTwo(pageSize: nat) {
    0 < pageSize < ADDRESSES && And(pageSize, pageSize - 1) == 0
  }

  /** ~(page_size - 1) in 64 bits. */
  function PageMask(pageSize: nat): nat
    requires PowerOfTwo(pageSize)
  {
    ADDRESSES - 1 - (pageSize - 1)
  }

  lemma Sixteen()
    ensures Pow2(4) == 16
  {
  }

  lemma AddressBits()
    ensures Pow2(64) == ADDRESSES
  {
    hide Pow2;
    Sixteen();
    PowDoubled(4, 16);
    PowDoubled(8, 0x100);
    PowDoubled(16, 0x1_0000);
    PowDoubled(32, 0x1_0000_0000);
  }

  /** The mask takes an address to its page. */
  lemma MaskedIsPage(pageSize: nat, address: nat)
    requires PowerOfTwo(pageSize) && address < ADDRESSES
    ensures And(address, PageMask(pageSize)) == PageOf(pageSize, address)
  {
    hide Pow2, And;
    SingleBit(pageSize);
    var k: nat :| pageSize == Pow2(k);
    AddressBits();
    if k > 64 { PowRises(64, k); }
    MaskRoundsDown(address, 64, k);
  }

  /** The page has a byte of the block. */
  predicate Overlaps(pageSize: nat, r: Range, page: int)
    requires pageSize > 0
  {
    r.size > 0 && page % pageSize == 0 && r.p < page + pageSize && page < r.p + r.size
  }

  /** The pages from that of the first byte to that of the last. */
  lemma OverlapsBetween(pageSize: nat, r: Range, page: int)
    requires pageSize > 0 && r.size > 0
    ensures Overlaps(pageSize, r, page) <==>
      page % pageSize == 0 && PageOf(pageSize, r.p) <= page <= PageOf(pageSize, r.p + r.size - 1)
  {
    if page % pageSize == 0 {
      var a, b := PageOf(pageSize, r.p), PageOf(pageSize, r.p + r.size - 1);
      if page < a { Multiples(page, a, pageSize); }
      if b < page { Multiples(b, page, pageSize); }
    }
  }

  function One(b: bool): nat { if b then 1 else 0 }

  /** How many of the blocks overlap the page. */
  ghost function Count(pageSize: nat, live: seq<Range>, page: int): nat
    requires pageSize > 0
  {
    if live == [] then 0
    else Count(pageSize, live[..|live| - 1], page) + One(Overlaps(pageSize, live[|live| - 1], page))
  }

  lemma CountAppend(pageSize: nat, live: seq<Range>, r: Range, page: int)
    requires pageSize > 0
    ensures Count(pageSize, live + [r], page) == Count(pageSize, live, page) + One(Overlaps(pageSize, r, page))
  {
    assert (live + [r])[..|live|] == live;
  }

  lemma {:induction false} CountRemove(pageSize: nat, live: seq<Range>, i: nat, page: int)
    requires pageSize > 0 && i < |live|
    ensures Count(pageSize, live, page) ==
      Count(pageSize, live[..i] + live[i + 1..], page) + One(Overlaps(pageSize, live[i], page))
  {
    hide Overlaps;
    var n := |live| - 1;
    var rest := live[..i] + live[i + 1..];
    if i < n {
      CountRemove(pageSize, live[..n], i, page);
      assert live[..n][..i] == live[..i];
      assert live[..n][i + 1..] == live[i + 1..n];
      assert rest[..n - 1] == live[..i] + live[i + 1..n];
    } else {
      assert rest == live[..n];
    }
  }

  // ---------------------------------------------------------------- the operating system's locks

  /** mlock and munlock do not stack: a page must be unlocked to be locked, and locked to be unlocked. */
  class Locker {
    var locked: set<int>

    constructor ()
      ensures locked == {}
    {
      locked := {};
    }

    method Lock(page: int)
      requires page !in locked
      modifies this
      ensures locked == old(locked) + {page}
    {
      locked := locked + {page};
    }

    method Unlock(page: int)
      requires page in locked
      modifies this
      ensures locked == old(locked) - {page}
    {
      locked := locked - {page};
    }
  }

  // ---------------------------------------------------------------- the counters

  function Counter(histogram: map<int, int>, page: int): int {
    if page in histogram then histogram[page] else 0
  }

  /** Counters are positive, and the pages with one are the locked ones. */
  ghost predicate Consistent(histogram: map<int, int>, locked: set<int>) {
    && (forall page :: page in histogram ==> histogram[page] > 0)
    && locked == histogram.Keys
  }

  /** Pages below "upto" have their counter changed by "change" where the block overlaps them; the others count the
      live blocks. */
  ghost predicate Counting(pageSize: nat, histogram: map<int, int>, live: seq<Range>, r: Range, upto: int, change: int)
    requires pageSize > 0
  {
    forall page :: Counter(histogram, page) ==
      Count(pageSize, live, page) + if Overlaps(pageSize, r, page) && page < upto then change else 0
  }

  ghost predicate Exact(pageSize: nat, histogram: map<int, int>, live: seq<Range>)
    requires pageSize > 0
  {
    forall page :: Counter(histogram, page) == Count(pageSize, live, page)
  }

  function Bumped(histogram: map<int, int>, page: int): map<int, int> {
    histogram[page := Counter(histogram, page) + 1]
  }

  function Dropped(histogram: map<int, int>, page: int): map<int, int> {
    if Counter(histogram, page) == 1 then histogram - {page} else histogram[page := Counter(histogram, page) - 1]
  }

  lemma CountingStarts(pageSize: nat, histogram: map<int, int>, live: seq<Range>, r: Range, change: int)
    requires pageSize > 0 && r.size > 0 && Exact(pageSize, histogram, live)
    ensures Counting(pageSize, histogram, live, r, PageOf(pageSize, r.p), change)
  {
    hide Overlaps, PageOf;
    forall page ensures Overlaps(pageSize, r, page) ==> page >= PageOf(pageSize, r.p) {
      OverlapsBetween(pageSize, r, page);
    }
  }

  /** One more page. */
  lemma CountingStep(pageSize: nat, h: map<int, int>, live: seq<Range>, r: Range, page: int, change: int)
    requires pageSize > 0 && r.size > 0 && Counting(pageSize, h, live, r, page, change)
    requires page % pageSize == 0 && PageOf(pageSize, r.p) <= page <= PageOf(pageSize, r.p + r.size - 1)
    ensures Overlaps(pageSize, r, page) && (page + pageSize) % pageSize == 0
    ensures change == 1 ==> Counting(pageSize, Bumped(h, page), live, r, page + pageSize, change)
    ensures change == -1 ==> Counting(pageSize, Dropped(h, page), live, r, page + pageSize, change)
  {
    OverlapsBetween(pageSize, r, page);
    NextMultiple(page, pageSize);
    forall k | Overlaps(pageSize, r, k) ensures k < page + pageSize <==> k <= page {
      if page < k { Multiples(page, k, pageSize); }
    }
    hide Overlaps, PageOf;
    forall k ensures Counter(Bumped(h, page), k) == Counter(h, k) + if k == page then 1 else 0 {}
    forall k ensures Counter(Dropped(h, page), k) == Counter(h, k) - if k == page then 1 else 0 {}
  }

  lemma CountingEnds(pageSize: nat, h: map<int, int>, live: seq<Range>, r: Range, upto: int, change: int, page: int)
    requires pageSize > 0 && r.size > 0 && Counting(pageSize, h, live, r, upto, change)
    requires upto > PageOf(pageSize, r.p + r.size - 1)
    ensures Counter(h, page) == Count(pageSize, live, page) + change * One(Overlaps(pageSize, r, page))
  {
    hide Overlaps, PageOf;
    OverlapsBetween(pageSize, r, page);
  }

  class LockedPageManager {
    const pageSize: nat
    const pageMask: nat
    const locker: Locker
    var histogram: map<int, int>
    ghost var live: seq<Range>       // the blocks locked and not yet unlocked

    ghost predicate Valid()
      reads this, locker
    {
      && PowerOfTwo(pageSize) && pageMask == PageMask(pageSize)
      && Consistent(histogram, locker.locked) && Exact(pageSize, histogram, live)
    }

    constructor (pageSize: nat)
      requires PowerOfTwo(pageSize)
      ensures Valid() && fresh(locker) && live == [] && this.pageSize == pageSize
    {
      this.pageSize, pageMask, histogram, live := pageSize, ADDRESSES - 1 - (pageSize - 1), map[], [];
      locker := new Locker();
    }

    /** The addresses of the block and of the page after it can be represented. */
    predicate NoWrap(r: Range) {
      r.p + r.size + pageSize <= ADDRESSES
    }

    method LockRange(p: nat, size: nat)
      requires Valid() && NoWrap(Range(p, size))
      modifies this`histogram, this`live, locker
      ensures Valid() && live == old(live) + [Range(p, size)]
    {
      hide Counting, Exact, Overlaps, PageOf, And, PageMask;
      ghost var r := Range(p, size);
      if size == 0 {
        Joined(pageSize, histogram, live, r, -1);
        live := live + [r];
        return;
      }
      var page, endPage := And(p, pageMask), And(p + size - 1, pageMask);
      MaskedIsPage(pageSize, p);
      MaskedIsPage(pageSize, p + size - 1);
      CountingStarts(pageSize, histogram, live, r, 1);
      while page <= endPage
        invariant Consistent(histogram, locker.locked) && live == old(live)
        invariant page % pageSize == 0 && PageOf(pageSize, p) <= page <= endPage + pageSize
        invariant Counting(pageSize, histogram, live, r, page, 1)
        decreases endPage + pageSize - page
      {
        CountingStep(pageSize, histogram, live, r, page, 1);
        if page !in histogram {
          locker.Lock(page);
          histogram := histogram[page := 1];
        } else {
          histogram := histogram[page := histogram[page] + 1];
        }
        page := (page + pageSize) % ADDRESSES;
      }
      Joined(pageSize, histogram, live, r, page);
      live := live + [r];
    }

    /** Only a live block may be unlocked; its pages then all have a counter. */
    method UnlockRange(p: nat, size: nat)
      requires Valid() && NoWrap(Range(p, size)) && (size == 0 || Range(p, size) in live)
      modifies this`histogram, this`live, locker
      ensures Valid()
      ensures if size == 0 then live == old(live) else
        exists i :: 0 <= i < |old(live)| && old(live)[i] == Range(p, size) &&
          live == old(live)[..i] + old(live)[i + 1..]
    {
      hide Counting, Exact, Overlaps, PageOf, And, PageMask;
      ghost var r := Range(p, size);
      if size == 0 { return; }
      ghost var i :| 0 <= i < |live| && live[i] == r;
      var page, endPage := And(p, pageMask), And(p + size - 1, pageMask);
      MaskedIsPage(pageSize, p);
      MaskedIsPage(pageSize, p + size - 1);
      CountingStarts(pageSize, histogram, live, r, -1);
      while page <= endPage
        invariant Consistent(histogram, locker.locked) && live == old(live)
        invariant page % pageSize == 0 && PageOf(pageSize, p) <= page <= endPage + pageSize
        invariant Counting(pageSize, histogram, live, r, page, -1)
        decreases endPage + pageSize - page
      {
        CountingStep(pageSize, histogram, live, r, page, -1);
        StillCounted(pageSize, histogram, live, i, page);
        assert page in histogram;
        ghost var before := histogram;
        histogram := histogram[page := histogram[page] - 1];
        if histogram[page] == 0 {
          locker.Unlock(page);
          histogram := histogram - {page};
        }
        assert histogram == Dropped(before, page);
        page := (page + pageSize) % ADDRESSES;
      }
      Left(pageSize, histogram, live, i, page);
      live := live[..i] + live[i + 1..];
    }

    method GetLockedPageCount() returns (n: nat)
      requires Valid()
      ensures n == |locker.locked|
    {
      n := |histogram|;
    }
  }

  lemma StillCounted(pageSize: nat, h: map<int, int>, live: seq<Range>, i: nat, page: int)
    requires pageSize > 0 && i < |live| && Counting(pageSize, h, live, live[i], page, -1)
    requires Overlaps(pageSize, live[i], page)
    ensures Counter(h, page) > 0
  {
    hide Overlaps;
    CountRemove(pageSize, live, i, page);
  }

  /** With every page of the block counted down, the counters are exact without it. */
  lemma Left(pageSize: nat, h: map<int, int>, live: seq<Range>, i: nat, upto: int)
    requires pageSize > 0 && i < |live| && live[i].size > 0 && Counting(pageSize, h, live, live[i], upto, -1)
    requires upto > PageOf(pageSize, live[i].p + live[i].size - 1)
    ensures Exact(pageSize, h, live[..i] + live[i + 1..])
  {
    hide PageOf, Counting, Overlaps;
    forall page ensures Counter(h, page) == Count(pageSize, live[..i] + live[i + 1..], page) {
      CountRemove(pageSize, live, i, page);
      CountingEnds(pageSize, h, live, live[i], upto, -1, page);
    }
  }

  /** With every page of the block counted, the counters are exact for one more live block. */
  lemma Joined(pageSize: nat, h: map<int, int>, live: seq<Range>, r: Range, upto: int)
    requires pageSize > 0
    requires r.size == 0 ==> Exact(pageSize, h, live)
    requires r.size > 0 ==> Counting(pageSize, h, live, r, upto, 1) && upto > PageOf(pageSize, r.p + r.size - 1)
    ensures Exact(pageSize, h, live + [r])
  {
    hide PageOf;
    forall page ensures Counter(h, page) == Count(pageSize, live + [r], page) {
      CountAppend(pageSize, live, r, page);
      if r.size > 0 { CountingEnds(pageSize, h, live, r, upto, 1, page); }
    }
  }

  /** A page is locked exactly when a live block overlaps it, and its counter says how many do. */
  lemma LockedWhenLive(pageSize: nat, h: map<int, int>, locked: set<int>, live: seq<Range>, page: int)
    requires pageSize > 0 && Consistent(h, locked) && Exact(pageSize, h, live)
    ensures page in locked <==> exists i :: 0 <= i < |live| && Overlaps(pageSize, live[i], page)
    ensures page in locked ==> h[page] == Count(pageSize, live, page)
  {
    hide Overlaps;
    assert Counter(h, page) == Count(pageSize, live, page);
    CountPositive(pageSize, live, page);
  }

  lemma {:induction false} CountPositive(pageSize: nat, live: seq<Range>, page: int)
    requires pageSize > 0
    ensures Count(pageSize, live, page) > 0 <==> exists i :: 0 <= i < |live| && Overlaps(pageSize, live[i], page)
  {
    hide Overlaps;
    if live != [] {
      var n := |live| - 1;
      CountPositive(pageSize, live[..n], page);
      if Count(pageSize, live[..n], page) > 0 {
        var i :| 0 <= i < n && Overlaps(pageSize, live[..n][i], page);
        assert Overlaps(pageSize, live[i], page);
      }
      forall i | 0 <= i < n && Overlaps(pageSize, live[i], page) ensures Count(pageSize, live[..n], page) > 0 {
        assert Overlaps(pageSize, live[..n][i], page);
      }
    }
  }

  datatype Op = Lock(r: Range) | Unlock(r: Range)

  /** Every block unlocked is one of those locked before and not unlocked since. */
  ghost predicate Balanced(live: multiset<Range>, ops: seq<Op>)
    decreases |ops|
  {
    if ops == [] then true
    else
      var r := ops[0].r;
      if ops[0].Lock? then Balanced(live + multiset{r}, ops[1..])
      else if r.size == 0 then Balanced(live, ops[1..])
      else r in live && Balanced(live - multiset{r}, ops[1..])
  }

  lemma RemovedCounts(live: seq<Range>, i: nat)
    requires i < |live|
    ensures multiset(live[..i] + live[i + 1..]) == multiset(live) - multiset{live[i]}
  {
    assert live == live[..i] + [live[i]] + live[i + 1..];
  }

  /** The live blocks after some operations. */
  ghost function LiveAfter(live: multiset<Range>, ops: seq<Op>): multiset<Range>
    decreases |ops|
  {
    if ops == [] then live
    else
      var r := ops[0].r;
      if ops[0].Lock? then LiveAfter(live + multiset{r}, ops[1..])
      else if r.size == 0 then LiveAfter(live, ops[1..])
      else LiveAfter(live - multiset{r}, ops[1..])
  }

  /** Any run that unlocks only live blocks, wherever it starts, leaves the blocks locked more often than unlocked live
      and every counter exact for them. */
  method Run(manager: LockedPageManager, ops: seq<Op>)
    requires manager.Valid() && forall i :: 0 <= i < |ops| ==> manager.NoWrap(ops[i].r)
    requires Balanced(multiset(manager.live), ops)
    modifies manager, manager.locker
    ensures manager.Valid() && multiset(manager.live) == LiveAfter(multiset(old(manager.live)), ops)
  {
    assert ops[0..] == ops;
    for k := 0 to |ops|
      invariant manager.Valid() && Balanced(multiset(manager.live), ops[k..])
      invariant LiveAfter(multiset(manager.live), ops[k..]) == LiveAfter(multiset(old(manager.live)), ops)
    {
      assert ops[k..][0] == ops[k] && ops[k..][1..] == ops[k + 1..];
      match ops[k]
      case Lock(r) =>
        manager.LockRange(r.p, r.size);
      case Unlock(r) =>
        ghost var live := manager.live;
        manager.UnlockRange(r.p, r.size);
        if r.size > 0 {
          ghost var i :| 0 <= i < |live| && live[i] == r && manager.live == live[..i] + live[i + 1..];
          RemovedCounts(live, i);
        }
    }
  }
}
