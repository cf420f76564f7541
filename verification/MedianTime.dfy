/** The median of the last block times (src/main.h). */
module MedianTime {

  import opened Multisets

  const MEDIAN_TIME_SPAN := 11

  /** How many elements are below m. */
  function Below(s: seq<int>, m: int): (n: nat)
    ensures n <= |s|
  {
    if s == [] then 0 else Below(s[..|s| - 1], m) + if s[|s| - 1] < m then 1 else 0
  }

  ghost predicate Ordered(s: seq<int>) {
    forall i, j :: 0 <= i <= j < |s| ==> s[i] <= s[j]
  }

  lemma {:induction false} BelowAppend(a: seq<int>, b: seq<int>, m: int)
    ensures Below(a + b, m) == Below(a, m) + Below(b, m)
  {
    if b == [] {
      assert a + b == a;
    } else {
      assert (a + b)[..|a + b| - 1] == a + b[..|b| - 1];
      BelowAppend(a, b[..|b| - 1], m);
    }
  }

  lemma {:induction false} BelowPermutation(a: seq<int>, b: seq<int>, m: int)
    requires multiset(a) == multiset(b)
    ensures Below(a, m) == Below(b, m)
    decreases |a|
  {
    if a == [] {
      assert |multiset(b)| == 0;
    } else {
      var last := |a| - 1;
      assert a == a[..last] + [a[last]];
      assert a[last] in multiset(b);
      var k :| 0 <= k < |b| && b[k] == a[last];
      var rest := b[..k] + b[k + 1..];
      RemovedCounts(b, k);
      assert b == b[..k] + [b[k]] + b[k + 1..];
      assert multiset(a) == multiset(a[..last]) + multiset{a[last]};
      Cancel(multiset(rest), multiset(a[..last]), a[last]);
      BelowPermutation(a[..last], rest, m);
      BelowAppend(b[..k], [b[k]], m);
      BelowAppend(b[..k] + [b[k]], b[k + 1..], m);
      BelowAppend(b[..k], b[k + 1..], m);
      assert Below([b[k]], m) == if b[k] < m then 1 else 0;
    }
  }

  /** The element at place k of an ordered sequence is at least m exactly when no more than k elements are below m. */
  lemma {:induction false} RankAtLeast(s: seq<int>, k: nat, m: int)
    requires Ordered(s) && k < |s|
    ensures s[k] >= m <==> Below(s, m) <= k
    decreases |s|
  {
    var last := |s| - 1;
    if s[last] < m {
      AllBelow(s, m);
    } else if k < last {
      RankAtLeast(s[..last], k, m);
    }
  }

  lemma {:induction false} AllBelow(s: seq<int>, m: int)
    requires forall i :: 0 <= i < |s| ==> s[i] < m
    ensures Below(s, m) == |s|
  {
    if s != [] { AllBelow(s[..|s| - 1], m); }
  }

  lemma OrderedInsert(s: seq<int>, i: nat, x: int)
    requires Ordered(s) && i <= |s| && (forall k :: 0 <= k < i ==> s[k] <= x)
    requires forall k :: i <= k < |s| ==> x <= s[k]
    ensures Ordered(s[..i] + [x] + s[i..])
    ensures multiset(s[..i] + [x] + s[i..]) == multiset(s) + multiset{x}
  {
    assert s == s[..i] + s[i..];
  }

  /** std::sort. */
  method Sort(s: seq<int>) returns (r: seq<int>)
    ensures Ordered(r) && multiset(r) == multiset(s)
  {
    r := [];
    var n := 0;
    while n < |s|
      invariant 0 <= n <= |s| && Ordered(r) && multiset(r) == multiset(s[..n])
    {
      var i := |r|;
      while i > 0 && r[i - 1] > s[n]
        invariant 0 <= i <= |r| && forall k :: i <= k < |r| ==> s[n] <= r[k]
      {
        i := i - 1;
      }
      OrderedInsert(r, i, s[n]);
      assert s[..n + 1] == s[..n] + [s[n]];
      r := r[..i] + [s[n]] + r[i..];
      n := n + 1;
    }
    assert s[..n] == s;
  }

  /** The times of a block and of its ten predecessors, or of all there are. */
  function Window(times: seq<int>, h: nat): (r: seq<int>)
    requires h < |times|
    ensures 1 <= |r| <= MEDIAN_TIME_SPAN
  {
    times[if h < MEDIAN_TIME_SPAN then 0 else h + 1 - MEDIAN_TIME_SPAN..h + 1]
  }

  /** The median of a window, fixed by how many elements lie below each bound. */
  ghost predicate IsMedian(w: seq<int>, median: int) {
    forall m :: median >= m <==> Below(w, m) <= |w| / 2
  }

  /** The times by height stand for the chain that pprev leads through. */
  method GetMedianTimePast(times: seq<int>, h: nat) returns (median: int)
    requires h < |times|
    ensures IsMedian(Window(times, h), median)
  {
    var window := LastTimes(times, h);
    var sorted := Sort(window);
    SameSize(sorted, window);
    MiddleIsMedian(sorted, window);
    median := sorted[|sorted| / 2];
  }

  /** The loop that fills the array from its end. */
  method LastTimes(times: seq<int>, h: nat) returns (window: seq<int>)
    requires h < |times|
    ensures window == Window(times, h)
  {
    var pmedian := new int[MEDIAN_TIME_SPAN];
    var pbegin := MEDIAN_TIME_SPAN;
    var pindex: int := h;
    var i := 0;
    while i < MEDIAN_TIME_SPAN && pindex >= 0
      invariant 0 <= i <= MEDIAN_TIME_SPAN && pbegin == MEDIAN_TIME_SPAN - i && pindex == h - i >= -1
      invariant pmedian[pbegin..] == times[h + 1 - i..h + 1]
    {
      ghost var filled := pmedian[pbegin..];
      pbegin := pbegin - 1;
      pmedian[pbegin] := times[pindex];
      assert pmedian[pbegin..] == [times[pindex]] + filled;
      i := i + 1;
      pindex := pindex - 1;
    }
    window := pmedian[pbegin..];
  }

  lemma MiddleIsMedian(sorted: seq<int>, w: seq<int>)
    requires Ordered(sorted) && multiset(sorted) == multiset(w) && |sorted| == |w| > 0
    ensures IsMedian(w, sorted[|sorted| / 2])
  {
    forall m ensures sorted[|sorted| / 2] >= m <==> Below(w, m) <= |w| / 2 {
      RankAtLeast(sorted, |sorted| / 2, m);
      BelowPermutation(sorted, w, m);
    }
  }

  lemma SameSize(a: seq<int>, b: seq<int>)
    requires multiset(a) == multiset(b)
    ensures |a| == |b|
  {
    assert |multiset(a)| == |multiset(b)|;
  }

  // ----- the median along a chain

  lemma {:induction false} BelowDropFirst(s: seq<int>, m: int)
    requires s != []
    ensures Below(s[1..], m) <= Below(s, m)
  {
    assert s == [s[0]] + s[1..];
    BelowAppend([s[0]], s[1..], m);
  }

  /** The window starts as the first block, grows by one while there are fewer than eleven blocks, and slides from then
      on. */
  lemma WindowNext(times: seq<int>, h: nat)
    requires h + 1 < |times|
    ensures Window(times, 0) == [times[0]]
    ensures var w, w' := Window(times, h), Window(times, h + 1);
      w' == (if |w| < 11 then w else w[1..]) + [times[h + 1]]
  {
    var a := if h < 11 then 0 else h - 10;
    assert Window(times, h) == times[a..h + 1];
    assert times[a..h + 1][1..] == times[a + 1..h + 1];
  }

  /** A block later than its predecessor's median does not lower the median. */
  lemma MedianStep(times: seq<int>, h: nat, median: int, next: int)
    requires h + 1 < |times| && times[h + 1] > median
    requires IsMedian(Window(times, h), median) && IsMedian(Window(times, h + 1), next)
    ensures next >= median
  {
    var w, w' := Window(times, h), Window(times, h + 1);
    var kept := if |w| < MEDIAN_TIME_SPAN then w else w[1..];
    WindowNext(times, h);
    BelowAppend(kept, [times[h + 1]], median);
    if |w| >= MEDIAN_TIME_SPAN { BelowDropFirst(w, median); }
    assert Below([times[h + 1]], median) == 0;
    assert median >= median;
    assert Below(w', median) <= |w'| / 2;
  }

  lemma MedianExists(w: seq<int>) returns (sorted: seq<int>, median: int)
    requires w != []
    ensures IsMedian(w, median)
  {
    sorted := SortedVersion(w);
    SameSize(sorted, w);
    median := sorted[|w| / 2];
    MiddleIsMedian(sorted, w);
  }

  lemma {:induction false} SortedVersion(w: seq<int>) returns (r: seq<int>)
    ensures Ordered(r) && multiset(r) == multiset(w)
    decreases |w|
  {
    if w == [] {
      r := [];
    } else {
      var s := SortedVersion(w[1..]);
      var i := Below(s, w[0]);
      forall k | 0 <= k < |s| ensures k < i <==> s[k] < w[0] { RankAtLeast(s, k, w[0]); }
      OrderedInsert(s, i, w[0]);
      r := s[..i] + [w[0]] + s[i..];
      assert w == [w[0]] + w[1..];
    }
  }

  /** Every block after the first is later than the median at its predecessor. */
  ghost predicate TimesRise(times: seq<int>) {
    forall h, median :: 0 <= h && h + 1 < |times| && IsMedian(Window(times, h), median) ==> times[h + 1] > median
  }

  /** Then the median never decreases along the chain. */
  lemma {:induction false} MedianNeverDecreases(times: seq<int>, g: nat, h: nat, median: int, later: int)
    requires TimesRise(times) && g <= h < |times|
    requires IsMedian(Window(times, g), median) && IsMedian(Window(times, h), later)
    ensures later >= median
    decreases h - g
  {
    if g == h {
      assert Below(Window(times, g), median) <= |Window(times, g)| / 2;
    } else {
      var sorted, next := MedianExists(Window(times, g + 1));
      MedianStep(times, g, median, next);
      MedianNeverDecreases(times, g + 1, h, next, later);
    }
  }
}
