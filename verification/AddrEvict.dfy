/** When the entry that SelectTried of src/addrman.cpp picks for eviction is the least recent of those it inspected. */
module AddrEvict {

  import opened AddrTables
  import opened AddrMoves
  import AddrCheck

  ghost predicate AllKnown(m: map<int, AddrInfo>, v: seq<int>) {
    forall i :: 0 <= i < |v| ==> v[i] in m
  }

  /** With these draws the entry at the returned position, which is the draw of the least recent place, is no more
      recent than any inspected one. */
  ghost predicate ReturnsOldest(m: map<int, AddrInfo>, v: seq<int>, draws: seq<int>)
    requires LegalDraws(v, draws)
  {
    var w := Drawn(v, draws, |draws|);
    forall place :: LeastOfFirst(m, w, |draws|, place) ==> OldestOfFirst(m, w, |draws|, draws[place])
  }

  /** The entry at "pos" is no more recent than any of the first k. */
  ghost predicate OldestOfFirst(m: map<int, AddrInfo>, w: seq<int>, k: nat, pos: int) {
    && k <= |w| && 0 <= pos < |w| && w[pos] in m
    && forall i :: 0 <= i < k && w[i] in m ==> m[w[pos]].nLastSuccess <= m[w[i]].nLastSuccess
  }

  /** All entries are as recent as each other; of two entries the first may also be the less recent. */
  ghost predicate Level(m: map<int, AddrInfo>, v: seq<int>)
    requires AllKnown(m, v)
  {
    if |v| == 2 then m[v[0]].nLastSuccess <= m[v[1]].nLastSuccess
    else forall i, j :: 0 <= i < |v| && 0 <= j < |v| ==> m[v[i]].nLastSuccess == m[v[j]].nLastSuccess
  }

  // ----- what the draws do

  lemma {:induction false} DrawnMember(v: seq<int>, draws: seq<int>, k: nat, i: nat)
    requires k <= |draws| && k <= |v| && (forall i :: 0 <= i < |draws| ==> i <= draws[i] < |v|) && i < |v|
    ensures exists j :: 0 <= j < |v| && Drawn(v, draws, k)[i] == v[j]
    decreases k
  {
    if k == 0 {
      assert Drawn(v, draws, k)[i] == v[i];
    } else {
      var d := draws[k - 1];
      var j := if i == k - 1 then d else if i == d then k - 1 else i;
      DrawnMember(v, draws, k - 1, j);
      assert Drawn(v, draws, k)[i] == Drawn(v, draws, k - 1)[j];
    }
  }

  /** Places that draw themselves change nothing. */
  lemma {:induction false} DrawnIdle(v: seq<int>, draws: seq<int>, j: nat, k: nat)
    requires j <= k <= |draws| && k <= |v| && (forall i :: 0 <= i < |draws| ==> i <= draws[i] < |v|)
    requires forall i :: j <= i < k ==> draws[i] == i
    ensures Drawn(v, draws, k) == Drawn(v, draws, j)
    decreases k
  {
    if j < k {
      DrawnIdle(v, draws, j, k - 1);
      var u := Drawn(v, draws, k - 1);
      assert u[k - 1 := u[k - 1]] == u;
    }
  }

  /** Two draws, and then the places themselves. */
  function Draws(v: seq<int>, d0: int, d1: int): seq<int> {
    [d0, d1, 2, 3][..if |v| < 4 then |v| else 4]
  }

  lemma TwoDraws(v: seq<int>, d0: int, d1: int)
    requires |v| >= 2 && 0 <= d0 < |v| && 1 <= d1 < |v|
    ensures LegalDraws(v, Draws(v, d0, d1))
    ensures var u, draws := v[d0 := v[0]][0 := v[d0]], Draws(v, d0, d1);
      Drawn(v, draws, |draws|) == u[d1 := u[1]][1 := u[d1]]
  {
    var draws := Draws(v, d0, d1);
    var n := if |v| < 4 then |v| else 4;
    assert |draws| == n && draws[0] == d0 && draws[1] == d1 && (n > 2 ==> draws[2] == 2) && (n > 3 ==> draws[3] == 3);
    DrawnIdle(v, draws, 2, n);
    assert Drawn(v, draws, 0) == v;
    assert Drawn(v, draws, 1) == v[d0 := v[0]][0 := v[d0]];
  }

  /** A least recent place whose draw holds something more recent refutes the draws. */
  lemma Missed(m: map<int, AddrInfo>, v: seq<int>, draws: seq<int>, place: int)
    requires LegalDraws(v, draws) && 0 <= place < |draws|
    requires LeastOfFirst(m, Drawn(v, draws, |draws|), |draws|, place)
    requires var w := Drawn(v, draws, |draws|);
      w[draws[place]] in m && m[w[draws[place]]].nLastSuccess > m[w[place]].nLastSuccess
    ensures !ReturnsOldest(m, v, draws)
  {
  }

  // ----- the exact condition

  lemma {:induction false} LeastRecent(m: map<int, AddrInfo>, v: seq<int>) returns (p: nat)
    requires AllKnown(m, v) && v != []
    ensures p < |v| && forall i :: 0 <= i < |v| ==> m[v[p]].nLastSuccess <= m[v[i]].nLastSuccess
    decreases |v|
  {
    var n := |v| - 1;
    if n == 0 { return 0; }
    p := LeastRecent(m, v[..n]);
    assert forall i :: 0 <= i < n ==> v[..n][i] == v[i];
    if m[v[n]].nLastSuccess < m[v[p]].nLastSuccess { p := n; }
  }

  ghost predicate Least(m: map<int, AddrInfo>, v: seq<int>, p: nat)
    requires AllKnown(m, v) && p < |v|
  {
    forall i :: 0 <= i < |v| ==> m[v[p]].nLastSuccess <= m[v[i]].nLastSuccess
  }

  /** The first entry is not least recent: a least recent one is drawn to the front, and the first is returned. */
  lemma FirstNotLeast(m: map<int, AddrInfo>, v: seq<int>, p: nat)
    requires AllKnown(m, v) && 0 < p < |v| && Least(m, v, p) && m[v[0]].nLastSuccess > m[v[p]].nLastSuccess
    ensures LegalDraws(v, Draws(v, p, 1)) && !ReturnsOldest(m, v, Draws(v, p, 1))
  {
    TwoDraws(v, p, 1);
    var draws := Draws(v, p, 1);
    var w := Drawn(v, draws, |draws|);
    assert w == v[p := v[0]][0 := v[p]];
    Missed(m, v, draws, 0);
  }

  /** The first entry is least recent but some later one is not. */
  lemma LaterNotLeast(m: map<int, AddrInfo>, v: seq<int>, q: nat)
    requires AllKnown(m, v) && 2 <= q < |v| && Least(m, v, 0) && !Least(m, v, q)
    ensures var draws := Draws(v, if Least(m, v, 1) then 1 else q, q);
      LegalDraws(v, draws) && !ReturnsOldest(m, v, draws)
  {
    var d0 := if Least(m, v, 1) then 1 else q;
    TwoDraws(v, d0, q);
    var draws := Draws(v, d0, q);
    var w := Drawn(v, draws, |draws|);
    if Least(m, v, 1) {
      assert w[0] == v[1] && w[1] == v[q];
      Missed(m, v, draws, 0);
    } else {
      assert w[0] == v[q] && w[1] == v[0] && w[q] == v[1];
      Missed(m, v, draws, 1);
    }
  }

  /** Only the second entry is not least recent. */
  lemma SecondNotLeast(m: map<int, AddrInfo>, v: seq<int>)
    requires AllKnown(m, v) && |v| >= 3 && Least(m, v, 0) && Least(m, v, 2) && !Least(m, v, 1)
    ensures LegalDraws(v, Draws(v, 2, 2)) && !ReturnsOldest(m, v, Draws(v, 2, 2))
  {
    TwoDraws(v, 2, 2);
    var draws := Draws(v, 2, 2);
    var w := Drawn(v, draws, |draws|);
    assert w[0] == v[2] && w[1] == v[0] && w[2] == v[1];
    Missed(m, v, draws, 0);
  }

  lemma SomeDrawsMiss(m: map<int, AddrInfo>, v: seq<int>) returns (draws: seq<int>)
    requires AllKnown(m, v) && !Level(m, v)
    ensures LegalDraws(v, draws) && !ReturnsOldest(m, v, draws)
  {
    hide LegalDraws, ReturnsOldest, Draws;
    var p := LeastRecent(m, v);
    if m[v[0]].nLastSuccess > m[v[p]].nLastSuccess {
      FirstNotLeast(m, v, p);
      return Draws(v, p, 1);
    }
    if exists q: nat :: 2 <= q < |v| && !Least(m, v, q) {
      var q: nat :| 2 <= q < |v| && !Least(m, v, q);
      LaterNotLeast(m, v, q);
      return Draws(v, if Least(m, v, 1) then 1 else q, q);
    }
    OnlySecond(m, v);
    SecondNotLeast(m, v);
    return Draws(v, 2, 2);
  }

  lemma OnlySecond(m: map<int, AddrInfo>, v: seq<int>)
    requires AllKnown(m, v) && !Level(m, v) && v != [] && Least(m, v, 0)
    requires forall q: nat :: 2 <= q < |v| ==> Least(m, v, q)
    ensures |v| >= 3 && !Least(m, v, 1)
  {
    if |v| < 2 || Least(m, v, 1) {
      forall i, j | 0 <= i < |v| && 0 <= j < |v| ensures m[v[i]].nLastSuccess == m[v[j]].nLastSuccess {
        assert Least(m, v, i) && Least(m, v, j);
      }
    }
  }

  lemma LevelReturnsOldest(m: map<int, AddrInfo>, v: seq<int>, draws: seq<int>)
    requires AllKnown(m, v) && Level(m, v) && LegalDraws(v, draws)
    ensures ReturnsOldest(m, v, draws)
  {
    var w := Drawn(v, draws, |draws|);
    if |v| == 2 {
      TwoDraws(v, draws[0], draws[1]);
      assert draws == Draws(v, draws[0], draws[1]);
    } else {
      forall i | 0 <= i < |v| ensures w[i] in m && m[w[i]].nLastSuccess == m[v[0]].nLastSuccess {
        DrawnMember(v, draws, |draws|, i);
      }
    }
  }

  /** Whatever is drawn, the comment's promise holds exactly for buckets whose entries are all as recent as each other,
      and for a first entry that is not more recent than the only other one. */
  lemma OldestReturned(m: map<int, AddrInfo>, v: seq<int>)
    requires AllKnown(m, v)
    ensures (forall draws :: LegalDraws(v, draws) ==> ReturnsOldest(m, v, draws)) <==> Level(m, v)
  {
    hide LegalDraws, ReturnsOldest, Level;
    if Level(m, v) {
      forall draws | LegalDraws(v, draws) ensures ReturnsOldest(m, v, draws) { LevelReturnsOldest(m, v, draws); }
    } else {
      var draws := SomeDrawsMiss(m, v);
    }
  }

  // ----- a full bucket that fails

  /** A peer in tried bucket 0; the first is the most recent one. */
  function Peer(i: int): AddrInfo
    requires 0 <= i < TRIED_BUCKET_SIZE
  {
    AddrInfo(Service(i, 8333), {}, 1, 0, 0, if i == 0 then 2 else 1, 0, 0, true, i)
  }

  function Id(ip: NetAddr): int { ip }

  function Firsts(): (s: seq<int>)
    ensures |s| == TRIED_BUCKET_SIZE && forall i :: 0 <= i < |s| ==> s[i] == i
  {
    seq(TRIED_BUCKET_SIZE, i => i)
  }

  function Peers(): map<int, AddrInfo> {
    map i | 0 <= i < TRIED_BUCKET_SIZE :: Peer(i)
  }

  /** A manager whose hash sends all its 64 peers to the same tried bucket. */
  function Crowded(): Tables {
    Tables(Net(_ => 0, _ => [], _ => [], _ => true, d => d), [], TRIED_BUCKET_SIZE, Peers(),
           map ip: NetAddr | 0 <= ip < TRIED_BUCKET_SIZE :: Id(ip), Firsts(),
           TRIED_BUCKET_SIZE, seq(TRIED_BUCKET_COUNT, k => if k == 0 then Firsts() else []),
           0, seq(NEW_BUCKET_COUNT, _ => {}))
  }

  lemma CrowdedIndexes()
    ensures Crowded().RandomOk() && Crowded().AddrOk()
  {
  }

  lemma CrowdedTables()
    ensures Crowded().NewOk({}) && Crowded().SizesOk() && Crowded().TimesOk()
  {
  }

  lemma CrowdedTried()
    ensures Crowded().TriedOk()
  {
    var t := Crowded();
    assert forall s :: t.net.TriedBucket(t.nKey, s) == 0;
    assert t.vvTried[0] == Firsts() && forall k :: 0 < k < |t.vvTried| ==> t.vvTried[k] == [];
    var v := Firsts();
    forall id | id in t.mapInfo ensures id in v { assert v[id] == id; }
  }

  lemma CrowdedCounts()
    ensures Crowded().CountsOk()
  {
    var m := Crowded().mapInfo;
    assert NewIds(m) == {};
    var s := Firsts();
    forall x ensures x in s <==> x in TriedIds(m) {
      if x in TriedIds(m) { assert s[x] == x; }
    }
    AddrCheck.Enumerates(s, TriedIds(m));
  }

  /** In a consistent manager, with the oldest of a full bucket drawn to the front, the most recent one is returned. */
  lemma OldestMissed()
    ensures Crowded().Valid({}) && Crowded().TimesOk()
    ensures var m, v := Crowded().mapInfo, Crowded().vvTried[0];
      var draws := Draws(v, 1, 1);
      |v| == TRIED_BUCKET_SIZE && LegalDraws(v, draws) && !ReturnsOldest(m, v, draws)
  {
    CrowdedIndexes();
    CrowdedTables();
    CrowdedTried();
    CrowdedCounts();
    hide Crowded;
    CrowdedBucket();
    FirstNotLeast(Crowded().mapInfo, Crowded().vvTried[0], 1);
  }

  lemma CrowdedBucket()
    ensures var m, t := Crowded().mapInfo, Crowded().vvTried;
      && |t| == TRIED_BUCKET_COUNT && |t[0]| == TRIED_BUCKET_SIZE && AllKnown(m, t[0])
      && Least(m, t[0], 1) && m[t[0][0]].nLastSuccess > m[t[0][1]].nLastSuccess
  {
    assert Firsts()[0] == 0 && Firsts()[1] == 1;
  }
}
