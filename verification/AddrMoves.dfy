/** What the operations of CAddrMan do to the tables, and why each keeps them consistent. */
module AddrMoves {
  import opened AddrTables
  import opened PowersOfTwo
  import Ascending

  function Max(a: int, b: int): int {
    if a < b then b else a
  }

  /** A known entry after its address has been heard of again. */
  function Heard(info: AddrInfo, addr: Address, nTimePenalty: int, nNow: int): AddrInfo {
    var nUpdateInterval := if nNow - addr.nTime < 24 * 60 * 60 then 60 * 60 else 24 * 60 * 60;
    var nTime :=
      if addr.nTime != 0 && (info.nTime == 0 || info.nTime < addr.nTime - nUpdateInterval - nTimePenalty)
      then ToTime32(Max(0, addr.nTime - nTimePenalty)) else info.nTime;
    info.(nTime := nTime, nServices := info.nServices + addr.nServices)
  }

  /** Whether a known entry may enter one more new bucket. */
  predicate MayGrow(info: AddrInfo, addr: Address) {
    && addr.nTime != 0 && (info.nTime == 0 || addr.nTime > info.nTime)
    && !info.fInTried && info.nRefCount != NEW_BUCKETS_PER_ADDRESS
  }

  function NewInfo(addr: Address, source: NetAddr, nTimePenalty: int): AddrInfo {
    AddrInfo(addr.service, addr.nServices, ToTime32(Max(0, addr.nTime - nTimePenalty)), source, 0, 0, 0, 0, false, -1)
  }

  /** The entry "id" takes position pos in the reordered tried bucket w, whose holder goes to new bucket dest. */
  function Exchange(t: Tables, id: int, k: int, w: seq<int>, pos: int, dest: int): Tables
    requires id in t.mapInfo && 0 <= k < |t.vvTried| && 0 <= dest < |t.vvNew|
    requires 0 <= pos < |w| && w[pos] in t.mapInfo
  {
    Promote(Demote(t, w[pos], k, w[..pos] + w[pos + 1..], dest), id, k, w[pos := id])
  }

  /** The entry "id" stands at one of the places n below "limit" and is the least recently seen of those, the first one
      of several. */
  ghost predicate OldestAmong(m: map<int, AddrInfo>, order: seq<int>, n: seq<int>, limit: nat, id: int) {
    && id in m && |n| == 4 && limit <= |order|
    && (exists k :: 0 <= k < 4 && 0 <= n[k] < limit && id == order[n[k]])
    && (forall k :: 0 <= k < 4 && 0 <= n[k] < limit ==> order[n[k]] in m && m[id].nTime <= m[order[n[k]]].nTime)
    && (forall k :: 0 <= k < 4 && 0 <= n[k] < limit && order[n[k]] < id ==> m[id].nTime < m[order[n[k]]].nTime)
  }

  /** The first terrible entry of a new bucket in id order. */
  ghost predicate FirstTerribleOf(m: map<int, AddrInfo>, bucket: set<int>, nNow: int, id: int) {
    && id in bucket && id in m && IsTerrible(m[id], nNow)
    && forall x :: x in bucket && x < id ==> x in m && !IsTerrible(m[x], nNow)
  }

  ghost predicate NoneTerrible(m: map<int, AddrInfo>, bucket: set<int>, nNow: int) {
    forall x :: x in bucket ==> x in m && !IsTerrible(m[x], nNow)
  }

  /** The least recently seen entry of those at four places of a new bucket in id order. */
  ghost predicate OldestOfFour(m: map<int, AddrInfo>, bucket: set<int>, n: seq<int>, id: int) {
    && |n| == 4 && (forall k :: 0 <= k < 4 ==> 0 <= n[k] < |bucket|)
    && OldestAmong(m, Ascending.Sequence(bucket), n, |bucket|, id)
  }

  /** The places that draw d and the three after it give. */
  function FourPlaces(net: Net, d: nat, n: nat): seq<int> {
    [net.Rand(d, n), net.Rand(d + 1, n), net.Rand(d + 2, n), net.Rand(d + 3, n)]
  }

  /** The entry that ShrinkNew takes out of a new bucket: the first terrible one, or the oldest of four if none is. */
  ghost predicate GivesWay(net: Net, m: map<int, AddrInfo>, bucket: set<int>, nNow: int, d: nat, id: int) {
    || FirstTerribleOf(m, bucket, nNow, id)
    || (NoneTerrible(m, bucket, nNow) && OldestOfFour(m, bucket, FourPlaces(net, d, |bucket|), id))
  }

  lemma InBucket(t: Tables, b: nat, pending: set<int>)
    requires t.NewOk(pending) && t.AddrOk() && t.RandomOk() && b < |t.vvNew|
    ensures forall id :: id in t.vvNew[b] ==> id in t.mapInfo && !t.mapInfo[id].fInTried && id >= 0
    ensures forall id :: id in t.vvNew[b] ==> 0 <= t.mapInfo[id].nRandomPos < |t.vRandom|
  {
  }

  /** The same elements in another order, none twice. */
  ghost predicate Shuffled(v: seq<int>, w: seq<int>) {
    |v| == |w| && NoRepeats(w) && forall x :: x in v <==> x in w
  }

  lemma SelfShuffled(v: seq<int>)
    requires NoRepeats(v)
    ensures Shuffled(v, v)
  {
  }

  lemma ShuffledSwap(v: seq<int>, w: seq<int>, i: int, j: int)
    requires Shuffled(v, w) && 0 <= i < |w| && 0 <= j < |w|
    ensures Shuffled(v, w[i := w[j]][j := w[i]])
  {
    var u := w[i := w[j]][j := w[i]];
    forall x ensures x in u <==> x in w {
      if x in w {
        var k :| 0 <= k < |w| && w[k] == x;
        assert u[if k == i then j else if k == j then i else k] == x;
      }
    }
  }

  // ----- SelectTried

  /** The bucket v after k swaps: place i with the place draws[i], at or after it. */
  function Drawn(v: seq<int>, draws: seq<int>, k: nat): (w: seq<int>)
    requires k <= |draws| && k <= |v| && forall i :: 0 <= i < |draws| ==> i <= draws[i] < |v|
    ensures |w| == |v|
  {
    if k == 0 then v
    else
      var u := Drawn(v, draws, k - 1);
      u[draws[k - 1] := u[k - 1]][k - 1 := u[draws[k - 1]]]
  }

  /** Among the first k places of w, "place" is the first with the least recent success. */
  ghost predicate LeastOfFirst(m: map<int, AddrInfo>, w: seq<int>, k: nat, place: int) {
    && k <= |w| && (forall i :: 0 <= i < k ==> w[i] in m) && 0 <= place < k
    && (forall i :: 0 <= i < k ==> m[w[place]].nLastSuccess <= m[w[i]].nLastSuccess)
    && (forall i :: 0 <= i < place ==> m[w[place]].nLastSuccess < m[w[i]].nLastSuccess)
  }

  /** One draw for each inspected place: that place or a later one. */
  ghost predicate LegalDraws(v: seq<int>, draws: seq<int>) {
    && |draws| == (if |v| < TRIED_ENTRIES_INSPECT_ON_EVICT then |v| else TRIED_ENTRIES_INSPECT_ON_EVICT)
    && forall i :: 0 <= i < |draws| ==> i <= draws[i] < |v|
  }

  /** What SelectTried does to a tried bucket v: the draws reorder it to w, and pos is the draw of the place that then
      holds the least recent success of those inspected. */
  ghost predicate Picks(m: map<int, AddrInfo>, v: seq<int>, w: seq<int>, pos: int, draws: seq<int>, place: int) {
    && LegalDraws(v, draws) && w == Drawn(v, draws, |draws|)
    && LeastOfFirst(m, w, |draws|, place) && pos == draws[place]
  }

  /** The places for the first k of "size" elements: draw d + i gives the place of element i, at or after it. */
  function PlacesDrawn(net: Net, d: nat, size: nat, k: nat): (s: seq<int>)
    requires k <= size
    ensures |s| == k && forall i :: 0 <= i < k ==> s[i] == i + net.Rand(d + i, size - i) && i <= s[i] < size
  {
    seq(k, i requires 0 <= i < k => i + net.Rand(d + i, size - i))
  }

  function Inspected(v: seq<int>): nat {
    if |v| < TRIED_ENTRIES_INSPECT_ON_EVICT then |v| else TRIED_ENTRIES_INSPECT_ON_EVICT
  }

  /** What SelectTried does with the draws from d on. */
  ghost predicate Selected(net: Net, m: map<int, AddrInfo>, v: seq<int>, d: nat, w: seq<int>, pos: int) {
    exists place :: Picks(m, v, w, pos, PlacesDrawn(net, d, |v|, Inspected(v)), place)
  }

  /** Only the last successes matter for the choice. */
  lemma SelectedAlike(net: Net, m: map<int, AddrInfo>, n: map<int, AddrInfo>, v: seq<int>, d: nat, w: seq<int>,
                      pos: int)
    requires Selected(net, m, v, d, w, pos)
    requires forall x :: x in m ==> x in n && n[x].nLastSuccess == m[x].nLastSuccess
    ensures Selected(net, n, v, d, w, pos)
  {
    hide Drawn;
    var draws := PlacesDrawn(net, d, |v|, Inspected(v));
    var place :| Picks(m, v, w, pos, draws, place);
    forall i | 0 <= i < |draws| ensures w[i] in n && n[w[i]].nLastSuccess == m[w[i]].nLastSuccess {
      var x := w[i];
      assert x in m;
    }
    assert Picks(n, v, w, pos, draws, place);
  }

  lemma MemberShuffled(v: seq<int>, w: seq<int>, i: nat)
    requires Shuffled(v, w) && i < |w|
    ensures w[i] in v
  {
    var x := w[i];
    assert x in w;
  }

  lemma DrawnNext(v: seq<int>, draws: seq<int>, nPos: int)
    requires |draws| < |v| && (forall i :: 0 <= i < |draws| ==> i <= draws[i] < |v|) && |draws| <= nPos < |v|
    ensures var u, k := Drawn(v, draws, |draws|), |draws|;
      Drawn(v, draws + [nPos], k + 1) == u[nPos := u[k]][k := u[nPos]]
  {
    DrawnPrefix(v, draws, nPos, |draws|);
  }

  lemma {:induction false} DrawnPrefix(v: seq<int>, draws: seq<int>, nPos: int, k: nat)
    requires k <= |draws| < |v| && (forall i :: 0 <= i < |draws| ==> i <= draws[i] < |v|) && |draws| <= nPos < |v|
    ensures Drawn(v, draws + [nPos], k) == Drawn(v, draws, k)
  {
    if k > 0 { DrawnPrefix(v, draws, nPos, k - 1); }
  }

  lemma InspectedLegal(net: Net, v: seq<int>, d: nat)
    ensures LegalDraws(v, PlacesDrawn(net, d, |v|, Inspected(v)))
  {
  }

  lemma NoneDrawn(net: Net, v: seq<int>, d: nat)
    ensures PlacesDrawn(net, d, |v|, 0) == [] && Drawn(v, [], 0) == v
  {
  }

  /** One more draw. */
  lemma DrawnStep(net: Net, v: seq<int>, d: nat, k: nat)
    requires k < |v|
    ensures var nPos, draws := k + net.Rand(d + k, |v| - k), PlacesDrawn(net, d, |v|, k);
      PlacesDrawn(net, d, |v|, k + 1) == draws + [nPos] &&
      Drawn(v, draws + [nPos], k + 1) ==
        Drawn(v, draws, k)[nPos := Drawn(v, draws, k)[k]][k := Drawn(v, draws, k)[nPos]]
  {
    var nPos, draws := k + net.Rand(d + k, |v| - k), PlacesDrawn(net, d, |v|, k);
    DrawnNext(v, draws, nPos);
    assert PlacesDrawn(net, d, |v|, k + 1) == draws + [nPos];
  }

  /** A swap of place k with a later one leaves the places before it alone. */
  lemma LeastNext(m: map<int, AddrInfo>, u: seq<int>, k: nat, nPos: nat, place: int)
    requires k <= nPos < |u| && u[nPos] in m && (k > 0 ==> LeastOfFirst(m, u, k, place))
    ensures var w := u[nPos := u[k]][k := u[nPos]];
      if k == 0 || m[u[nPos]].nLastSuccess < m[u[place]].nLastSuccess then LeastOfFirst(m, w, k + 1, k)
      else LeastOfFirst(m, w, k + 1, place) && w[place] == u[place]
  {
    var w := u[nPos := u[k]][k := u[nPos]];
    assert forall i :: 0 <= i < k ==> w[i] == u[i];
    assert w[k] == u[nPos];
  }

  // ----- MakeTried

  predicate HasShape(t: Tables) {
    |t.vvTried| == TRIED_BUCKET_COUNT && |t.vvNew| == NEW_BUCKET_COUNT
  }

  /** What MakeTried does to the tables. */
  ghost predicate Moved(t: Tables, id: int, origin: nat, d: nat, w: seq<int>, pos: int, dest: nat, u: Tables)
    requires HasShape(t) && id in t.mapInfo && origin < |t.vvNew|
  {
    var k := t.net.TriedBucket(t.nKey, t.mapInfo[id].service);
    if |t.vvTried[k]| < TRIED_BUCKET_SIZE then
      pos == -1 && u == Promote(t, id, k, t.vvTried[k] + [id])
    else
      && Shuffled(t.vvTried[k], w) && 0 <= pos < |w| && w[pos] in t.mapInfo
      && Selected(t.net, t.mapInfo, t.vvTried[k], d, w, pos)
      && dest == RoomFor(Homeless(t, id), w[pos], origin)
      && u == Exchange(t, id, k, w, pos, dest)
  }

  /** Where an evicted entry lands: in the new bucket of its own source if that has room, or else in the
      bucket that the promoted entry came from. */
  function RoomFor(t: Tables, loser: int, origin: nat): (b: nat)
    requires loser in t.mapInfo && |t.vvNew| == NEW_BUCKET_COUNT && origin < |t.vvNew|
    ensures b < |t.vvNew|
  {
    var b := t.net.NewBucket(t.nKey, t.mapInfo[loser].service.ip, t.mapInfo[loser].source);
    if |t.vvNew[b]| < NEW_BUCKET_SIZE then b else origin
  }

  /** The entry "id", in no bucket at all, takes position pos of tried bucket k and its holder goes to dest. */
  function Replaced(t: Tables, id: int, k: int, w: seq<int>, pos: int, dest: int): Tables
    requires id in t.mapInfo && 0 <= k < |t.vvTried| && 0 <= dest < |t.vvNew|
    requires 0 <= pos < |w| && w[pos] in t.mapInfo && w[pos] != id
  {
    t.(vvNew := t.vvNew[dest := t.vvNew[dest] + {w[pos]}], nNew := t.nNew + 1, vvTried := t.vvTried[k := w[pos := id]],
       mapInfo := t.mapInfo[w[pos] := t.mapInfo[w[pos]].(fInTried := false, nRefCount := 1)]
                           [id := t.mapInfo[id].(fInTried := true)])
  }

  /** The state of MakeTried after its first loop. */
  function Homeless(t: Tables, id: int): Tables
    requires id in t.mapInfo
  {
    t.(vvNew := Strip(t.vvNew, id), nNew := t.nNew - 1, mapInfo := t.mapInfo[id := t.mapInfo[id].(nRefCount := 0)])
  }

  lemma ExchangeSteps(t: Tables, id: int, k: int, w: seq<int>, pos: int, dest: int)
    requires id in t.mapInfo && 0 <= k < |t.vvTried| && 0 <= dest < |t.vvNew|
    requires 0 <= pos < |w| && w[pos] in t.mapInfo && w[pos] != id
    ensures Replaced(Homeless(t, id), id, k, w, pos, dest) == Exchange(t, id, k, w, pos, dest)
  {
    var u := Replaced(Homeless(t, id), id, k, w, pos, dest);
    var v := Exchange(t, id, k, w, pos, dest);
    assert u.mapInfo == v.mapInfo;
    forall b | 0 <= b < |t.vvNew| ensures u.vvNew[b] == v.vvNew[b] {}
    assert u.vvNew == v.vvNew;
    assert u.vvTried == v.vvTried;
  }

  lemma TriedShape(t: Tables)
    requires t.TriedOk()
    ensures |t.vvTried| == TRIED_BUCKET_COUNT && forall k :: 0 <= k < |t.vvTried| ==> NoRepeats(t.vvTried[k])
    ensures forall k, x :: 0 <= k < |t.vvTried| && x in t.vvTried[k] ==> x in t.mapInfo && t.mapInfo[x].fInTried
    ensures t.AddrOk() ==> forall k, x :: 0 <= k < |t.vvTried| && x in t.vvTried[k] ==> x >= 0
  {
    if t.AddrOk() {
      forall k, x | 0 <= k < |t.vvTried| && x in t.vvTried[k] ensures x >= 0 {
        assert x in t.mapInfo;
      }
    }
  }

  /** An unused id is in no bucket. */
  lemma FreshNowhere(t: Tables, id: int)
    requires t.Valid({}) && id !in t.mapInfo
    ensures forall b :: 0 <= b < |t.vvNew| ==> id !in t.vvNew[b]
  {
    FreshHolders(t, id, {});
    assert forall b :: 0 <= b < |t.vvNew| && id in t.vvNew[b] ==> b in Holders(t.vvNew, id);
  }

  lemma ShapeOfValid(t: Tables)
    requires t.Valid({})
    ensures HasShape(t) && |t.vvNew| == NEW_BUCKET_COUNT && t.nIdCount !in t.mapInfo
  {
    TriedShape(t);
  }

  lemma MovedValid(t: Tables, id: int, origin: nat, d: nat, w: seq<int>, pos: int, dest: nat, u: Tables)
    requires t.Valid({}) && origin < |t.vvNew| && id in t.vvNew[origin] && id in t.mapInfo
    requires Moved(t, id, origin, d, w, pos, dest, u)
    ensures u.Valid({})
    ensures t.TimesOk() && t.mapInfo[id].nLastSuccess > 0 ==> u.TimesOk()
  {
    assert |t.vvNew| == NEW_BUCKET_COUNT;
    hide Tables.RandomOk, Tables.AddrOk, Tables.CountsOk, Tables.TimesOk, Tables.NewOk, Tables.TriedOk;
    TriedShape(t);
    InBucket(t, origin, {});
    var k := t.net.TriedBucket(t.nKey, t.mapInfo[id].service);
    assert id !in t.vvTried[k];
    if |t.vvTried[k]| < TRIED_BUCKET_SIZE {
      PromoteKeeps(t, id, k, t.vvTried[k] + [id]);
      PromoteSizes(t, id, k, t.vvTried[k] + [id]);
    } else {
      var v := w[..pos] + w[pos + 1..];
      RemoveAt(w, pos, id);
      assert Loses(t.vvTried[k], v, w[pos]);
      DemoteKeeps(t, w[pos], k, v, dest);
      PromoteKeeps(Demote(t, w[pos], k, v, dest), id, k, w[pos := id]);
      ExchangeSizes(t, id, k, w, pos, dest, origin);
    }
  }

  /** The two ways through MakeTried. */
  lemma PlacedMoved(t: Tables, id: int, origin: nat, d: nat, k: int)
    requires HasShape(t) && id in t.mapInfo && origin < |t.vvNew|
    requires k == t.net.TriedBucket(t.nKey, t.mapInfo[id].service) && |t.vvTried[k]| < TRIED_BUCKET_SIZE
    ensures Moved(t, id, origin, d, t.vvTried[k], -1, 0, Promote(t, id, k, t.vvTried[k] + [id]))
  {
  }

  lemma ReplacedMoved(t: Tables, id: int, origin: nat, d: nat, k: int, w: seq<int>, pos: int, dest: nat)
    requires HasShape(t) && id in t.mapInfo && origin < |t.vvNew|
    requires k == t.net.TriedBucket(t.nKey, t.mapInfo[id].service) && |t.vvTried[k]| >= TRIED_BUCKET_SIZE
    requires Shuffled(t.vvTried[k], w) && 0 <= pos < |w| && w[pos] in t.mapInfo && w[pos] != id
    requires Selected(t.net, t.mapInfo, t.vvTried[k], d, w, pos) && dest == RoomFor(Homeless(t, id), w[pos], origin)
    ensures Moved(t, id, origin, d, w, pos, dest, Replaced(Homeless(t, id), id, k, w, pos, dest))
  {
    ExchangeSteps(t, id, k, w, pos, dest);
  }

  lemma PromoteSizes(t: Tables, id: int, k: int, bucket: seq<int>)
    requires t.SizesOk() && id in t.mapInfo && 0 <= k < |t.vvTried| && |bucket| <= TRIED_BUCKET_SIZE
    ensures Promote(t, id, k, bucket).SizesOk()
  {
    forall b | 0 <= b < |t.vvNew| ensures |t.vvNew[b] - {id}| <= NEW_BUCKET_SIZE {
      SubsetSize(t.vvNew[b] - {id}, t.vvNew[b]);
    }
  }

  /** The evicted entry always finds room. */
  lemma ExchangeSizes(t: Tables, id: int, k: int, w: seq<int>, pos: int, dest: nat, origin: nat)
    requires t.SizesOk() && id in t.mapInfo && 0 <= k < |t.vvTried| && |w| <= TRIED_BUCKET_SIZE
    requires 0 <= pos < |w| && w[pos] in t.mapInfo && w[pos] != id && |t.vvNew| == NEW_BUCKET_COUNT
    requires origin < |t.vvNew| && id in t.vvNew[origin] && dest == RoomFor(Homeless(t, id), w[pos], origin)
    ensures Exchange(t, id, k, w, pos, dest).SizesOk()
  {
    var b := t.net.NewBucket(t.nKey, t.mapInfo[w[pos]].service.ip, t.mapInfo[w[pos]].source);
    LeavesRoom(t.vvNew[origin], id);
    RoomKept(t.vvNew, id, w[pos], dest);
  }

  lemma LeavesRoom(s: set<int>, id: int)
    requires id in s
    ensures |s - {id}| < |s|
  {
  }

  lemma RoomKept(vvNew: seq<set<int>>, id: int, x: int, dest: nat)
    requires forall b :: 0 <= b < |vvNew| ==> |vvNew[b]| <= NEW_BUCKET_SIZE
    requires dest < |vvNew| && |vvNew[dest] - {id}| < NEW_BUCKET_SIZE && x != id
    ensures var u := Strip(vvNew[dest := vvNew[dest] + {x}], id); forall b :: 0 <= b < |u| ==> |u[b]| <= NEW_BUCKET_SIZE
  {
    var u := Strip(vvNew[dest := vvNew[dest] + {x}], id);
    forall b | 0 <= b < |vvNew| ensures |u[b]| <= NEW_BUCKET_SIZE {
      SubsetSize(vvNew[b] - {id}, vvNew[b]);
      if b == dest {
        assert u[b] == (vvNew[b] - {id}) + {x};
      } else {
        assert u[b] == vvNew[b] - {id};
      }
    }
  }

  // ----- Attempt_, Connected_, Good_

  /** An entry with other times, services and attempts. */
  ghost predicate SamePlace(a: AddrInfo, b: AddrInfo) {
    a.service == b.service && a.nRefCount == b.nRefCount && a.fInTried == b.fInTried && a.nRandomPos == b.nRandomPos
  }

  function Touch(t: Tables, id: int, info: AddrInfo): Tables {
    t.(mapInfo := t.mapInfo[id := info])
  }

  lemma TouchValid(t: Tables, id: int, info: AddrInfo)
    requires t.Valid({}) && id in t.mapInfo && SamePlace(t.mapInfo[id], info)
    ensures Touch(t, id, info).Valid({})
    ensures t.TimesOk() && info.nLastTry >= 0 && info.nLastSuccess >= t.mapInfo[id].nLastSuccess ==>
      Touch(t, id, info).TimesOk()
    ensures t.TimesOk() && info.nLastTry >= 0 && info.nLastSuccess > 0 ==> Touch(t, id, info).TimesOk()
    ensures info.nLastTry == t.mapInfo[id].nLastTry && info.nLastSuccess == t.mapInfo[id].nLastSuccess ==>
      (t.TimesOk() ==> Touch(t, id, info).TimesOk())
  {
    hide Tables.RandomOk, Tables.AddrOk, Tables.CountsOk, Tables.NewOk, Tables.TriedOk;
    RecountKeeps(t, id, info);
    TouchNewOk(t, id, info);
    assert Touch(t, id, info).SizesOk();
  }

  lemma TouchNewOk(t: Tables, id: int, info: AddrInfo)
    requires t.NewOk({}) && id in t.mapInfo && SamePlace(t.mapInfo[id], info)
    ensures Touch(t, id, info).NewOk({})
  {
  }

  lemma TouchSame(t: Tables, id: int)
    requires id in t.mapInfo
    ensures Touch(t, id, t.mapInfo[id]) == t
  {
    assert t.mapInfo[id := t.mapInfo[id]] == t.mapInfo;
  }

  lemma SomeHolder(t: Tables, id: int) returns (b: int)
    requires t.NewOk({}) && id in t.mapInfo && !t.mapInfo[id].fInTried
    ensures 0 <= b < |t.vvNew| && id in t.vvNew[b]
  {
    assert |Holders(t.vvNew, id)| > 0;
    b :| b in Holders(t.vvNew, id);
  }

  /** The entry an operation on "addr" is about: same address and same port. */
  ghost predicate Known(t: Tables, addr: Service) {
    addr.ip in t.mapAddr && t.mapAddr[addr.ip] in t.mapInfo && t.mapInfo[t.mapAddr[addr.ip]].service == addr
  }

  function GoodInfo(info: AddrInfo, nTime: int): AddrInfo {
    info.(nLastSuccess := nTime, nLastTry := nTime, nTime := ToTime32(nTime), nAttempts := 0)
  }

  /** What Attempt_ does: a known entry gets the time and one more attempt. */
  ghost function Attempted(t: Tables, addr: Service, nTime: int): Tables {
    if !Known(t, addr) then t
    else
      var id := t.mapAddr[addr.ip];
      Touch(t, id, t.mapInfo[id].(nLastTry := nTime, nAttempts := t.mapInfo[id].nAttempts + 1))
  }

  /** What Connected_ does: a known entry gets the time if its own is more than twenty minutes older. */
  ghost function Reached(t: Tables, addr: Service, nTime: int): Tables {
    if !Known(t, addr) || nTime - t.mapInfo[t.mapAddr[addr.ip]].nTime <= 20 * 60 then t
    else
      var id := t.mapAddr[addr.ip];
      Touch(t, id, t.mapInfo[id].(nTime := ToTime32(nTime)))
  }

  /** The first new bucket with the entry, counting from "start" and around the end. */
  ghost predicate FirstFrom(vvNew: seq<set<int>>, id: int, start: nat, origin: nat) {
    && origin < |vvNew| && id in vvNew[origin]
    && forall b :: 0 <= b < |vvNew| && (if start <= origin then start <= b < origin else b >= start || b < origin) ==>
         id !in vvNew[b]
  }

  lemma FirstFromHolds(vvNew: seq<set<int>>, id: int, start: nat, origin: nat)
    requires FirstFrom(vvNew, id, start, origin)
    ensures origin < |vvNew| && id in vvNew[origin]
  {
  }

  /** What Good_ does to the tables with the draws from d on. */
  ghost predicate MarkedGood(t: Tables, addr: Service, nTime: int, d: nat, u: Tables)
    requires HasShape(t)
  {
    if !Known(t, addr) then u == t
    else
      var id := t.mapAddr[addr.ip];
      var s := Touch(t, id, GoodInfo(t.mapInfo[id], nTime));
      var start, next := t.net.Rand(d, NEW_BUCKET_COUNT), d + 1;
      if t.mapInfo[id].fInTried then u == s
      else exists origin: nat, w, pos, dest: nat ::
        FirstFrom(s.vvNew, id, start, origin) && Moved(s, id, origin, next, w, pos, dest, u)
  }

  /** The ways through Good_. */
  lemma MarkedInPlace(t: Tables, addr: Service, nTime: int, d: nat)
    requires HasShape(t)
    ensures !Known(t, addr) ==> MarkedGood(t, addr, nTime, d, t)
    ensures Known(t, addr) && t.mapInfo[t.mapAddr[addr.ip]].fInTried ==>
      MarkedGood(t, addr, nTime, d, Touch(t, t.mapAddr[addr.ip], GoodInfo(t.mapInfo[t.mapAddr[addr.ip]], nTime)))
  {
  }

  lemma MarkedMoved(t: Tables, addr: Service, nTime: int, d: nat, origin: nat, w: seq<int>, pos: int, dest: nat,
                    u: Tables)
    requires HasShape(t) && Known(t, addr) && !t.mapInfo[t.mapAddr[addr.ip]].fInTried
    requires var id := t.mapAddr[addr.ip];
      var s := Touch(t, id, GoodInfo(t.mapInfo[id], nTime));
      && FirstFrom(s.vvNew, id, t.net.Rand(d, NEW_BUCKET_COUNT), origin)
      && Moved(s, id, origin, d + 1, w, pos, dest, u)
    ensures MarkedGood(t, addr, nTime, d, u)
  {
    hide Moved, FirstFrom;
    var start, next := t.net.Rand(d, NEW_BUCKET_COUNT), d + 1;
    var id := t.mapAddr[addr.ip];
    var s := Touch(t, id, GoodInfo(t.mapInfo[id], nTime));
    FirstFromHolds(s.vvNew, id, start, origin);
    assert FirstFrom(s.vvNew, id, start, origin) && Moved(s, id, origin, next, w, pos, dest, u);
  }

  /** Promotion loses nobody: the entry is now tried, and all others stay as they were but for at most one,
      which had a place in the same full tried bucket and is now a new entry with one reference. */
  lemma MovedFacts(t: Tables, id: int, origin: nat, d: nat, w: seq<int>, pos: int, dest: nat, u: Tables)
    returns (loser: int)
    requires t.Valid({}) && origin < |t.vvNew| && id in t.vvNew[origin] && id in t.mapInfo
    requires Moved(t, id, origin, d, w, pos, dest, u)
    ensures u.mapInfo.Keys == t.mapInfo.Keys && u.mapAddr == t.mapAddr && u.vRandom == t.vRandom
    ensures u.mapInfo[id] == t.mapInfo[id].(fInTried := true, nRefCount := 0)
    ensures forall x :: x in t.mapInfo && x != id && x != loser ==> u.mapInfo[x] == t.mapInfo[x]
    ensures loser != id
    ensures loser in t.mapInfo <==>
      |t.vvTried[t.net.TriedBucket(t.nKey, t.mapInfo[id].service)]| == TRIED_BUCKET_SIZE
    ensures loser in t.mapInfo ==>
      && t.mapInfo[loser].fInTried && u.mapInfo[loser] == t.mapInfo[loser].(fInTried := false, nRefCount := 1)
      && t.net.TriedBucket(t.nKey, t.mapInfo[loser].service) == t.net.TriedBucket(t.nKey, t.mapInfo[id].service)
  {
    TriedShape(t);
    InBucket(t, origin, {});
    var k := t.net.TriedBucket(t.nKey, t.mapInfo[id].service);
    hide Tables.RandomOk, Tables.CountsOk, Tables.NewOk;
    if |t.vvTried[k]| < TRIED_BUCKET_SIZE {
      loser := -1;
      assert loser !in t.mapInfo;
    } else {
      loser := w[pos];
      assert loser in t.vvTried[k];
    }
  }

  /** The entry that a full tried bucket gives up is the one at the draw of the least recent place, and its new home is
      the new bucket of its own source, or the one the promoted entry came from if that is full without it. */
  lemma MovedHome(t: Tables, id: int, origin: nat, d: nat, w: seq<int>, pos: int, dest: nat, u: Tables)
    requires t.Valid({}) && origin < |t.vvNew| && id in t.vvNew[origin] && id in t.mapInfo
    requires Moved(t, id, origin, d, w, pos, dest, u)
    requires |t.vvTried[t.net.TriedBucket(t.nKey, t.mapInfo[id].service)]| == 64
    ensures var v := t.vvTried[t.net.TriedBucket(t.nKey, t.mapInfo[id].service)];
      Selected(t.net, t.mapInfo, v, d, w, pos) && 0 <= pos < |w| && w[pos] in v && w[pos] in t.mapInfo && w[pos] != id
    ensures var info := t.mapInfo[w[pos]];
      var own := t.net.NewBucket(t.nKey, info.service.ip, info.source);
      if |t.vvNew[own] - {id}| < 64 then w[pos] in u.vvNew[own] else w[pos] in u.vvNew[origin]
  {
    hide Tables.RandomOk, Tables.CountsOk, Tables.TriedOk, LegalDraws, Drawn, LeastOfFirst;
    TriedShape(t);
    InBucket(t, origin, {});
    var loser := w[pos];
    assert loser in w;
  }

  // ----- Add_

  lemma MayGrowRoom(t: Tables, id: int)
    requires t.NewOk({}) && id in t.mapInfo && !t.mapInfo[id].fInTried
    requires t.mapInfo[id].nRefCount != NEW_BUCKETS_PER_ADDRESS
    ensures 1 <= t.mapInfo[id].nRefCount < NEW_BUCKETS_PER_ADDRESS
  {
  }

  /** Draw d, one of 2^nRefCount equally likely numbers: zero lets the entry enter one more new bucket. */
  function RepeatDraw(net: Net, d: nat, info: AddrInfo): nat
    requires info.nRefCount >= 0
  {
    net.Rand(d, Pow2(info.nRefCount))
  }

  /** What Add_ does to the tables with the draws from d on; "victim" is the entry that a full bucket gave up. */
  ghost predicate Added(t: Tables, addr: Address, source: NetAddr, nTimePenalty: int, nNow: int, d: nat, u: Tables,
                        victim: int)
    requires HasShape(t) && t.RandomOk() && t.AddrOk()
  {
    var b := t.net.NewBucket(t.nKey, addr.service.ip, source);
    if !t.net.isRoutable(addr.service.ip) then u == t
    else if addr.service.ip in t.mapAddr then
      var id := t.mapAddr[addr.service.ip];
      var s := Touch(t, id, Heard(t.mapInfo[id], addr, nTimePenalty, nNow));
      if !MayGrow(s.mapInfo[id], addr) then u == s
      else
        && s.mapInfo[id].nRefCount >= 0
        && if RepeatDraw(t.net, d, s.mapInfo[id]) != 0 || id in t.vvNew[b] then u == s
           else Settled(Raise(s, id), b, id, nNow, d + 1, victim, u)
    else Settled(Fresh(t, NewInfo(addr, source, nTimePenalty)), b, t.nIdCount, nNow, d, victim, u)
  }

  /** The entry enters bucket b; a full one first gives up another. */
  ghost predicate Settled(t: Tables, b: nat, id: int, nNow: int, d: nat, victim: int, u: Tables)
    requires b < |t.vvNew|
  {
    if |t.vvNew[b]| == NEW_BUCKET_SIZE then
      && t.RandomOk() && victim in t.vvNew[b] && victim in t.mapInfo
      && GivesWay(t.net, t.mapInfo, t.vvNew[b], nNow, d, victim)
      && u == Enter(t.DropRef(b, victim), b, id)
    else u == Enter(t, b, id)
  }

  lemma SettledValid(t: Tables, b: nat, id: int, nNow: int, d: nat, victim: int, u: Tables)
    requires t.Valid({id}) && b < |t.vvNew| && id in t.mapInfo && !t.mapInfo[id].fInTried && id !in t.vvNew[b]
    requires Settled(t, b, id, nNow, d, victim, u)
    ensures u.Valid({})
    ensures t.TimesOk() ==> u.TimesOk()
  {
    hide GivesWay;
    hide Tables.RandomOk, Tables.AddrOk, Tables.CountsOk, Tables.NewOk, Tables.TriedOk, Tables.TimesOk;
    if |t.vvNew[b]| == NEW_BUCKET_SIZE {
      DropRefValid(t, b, victim, {id});
      DropRefFacts(t, b, victim);
      EnterValid(t.DropRef(b, victim), b, id);
    } else {
      EnterValid(t, b, id);
    }
  }

  /** Taking an id out of a bucket frees one place there and deletes at most that entry. */
  lemma DropRefFacts(t: Tables, b: nat, victim: int)
    requires t.RandomOk() && b < |t.vvNew| && victim in t.vvNew[b] && victim in t.mapInfo
    ensures t.DropRef(b, victim).vvNew == t.vvNew[b := t.vvNew[b] - {victim}]
    ensures |t.DropRef(b, victim).vvNew[b]| == |t.vvNew[b]| - 1
    ensures t.DropRef(b, victim).mapInfo.Keys ==
      t.mapInfo.Keys - if t.mapInfo[victim].nRefCount == 1 then {victim} else {}
    ensures forall x :: x in t.mapInfo && x != victim ==>
      t.DropRef(b, victim).mapInfo[x] == t.mapInfo[x].(nRandomPos := t.DropRef(b, victim).mapInfo[x].nRandomPos)
  {
    var s := Unlink(t, b, victim);
    SameIndexRandom(t, s);
    if s.mapInfo[victim].nRefCount == 0 {
      ForgetSplits(s, victim);
    }
    hide Tables.RandomOk, Tables.Forget;
  }

  /** At most one entry is gone: a new one, with a single reference, from the full bucket b. Entries for
      addresses other than "ip" keep all but their place in vRandom and perhaps one reference. */
  ghost predicate KeepsOthers(t: Tables, u: Tables, b: nat, victim: int, ip: NetAddr)
    requires b < |t.vvNew|
  {
    && (forall x :: x in t.mapInfo && x !in u.mapInfo ==>
          x == victim && !t.mapInfo[x].fInTried && t.mapInfo[x].nRefCount == 1)
    && (forall x :: x in t.mapInfo && x !in u.mapInfo ==> x in t.vvNew[b] && |t.vvNew[b]| == NEW_BUCKET_SIZE)
    && (forall x :: x in t.mapInfo && x in u.mapInfo ==> u.mapInfo[x].fInTried == t.mapInfo[x].fInTried)
    && (forall x :: x in t.mapInfo && x in u.mapInfo && t.mapInfo[x].service.ip != ip ==>
          u.mapInfo[x] == t.mapInfo[x].(nRandomPos := u.mapInfo[x].nRandomPos, nRefCount := u.mapInfo[x].nRefCount))
  }

  /** A routable address is known after it has been added, and KeepsOthers holds; in particular all tried
      entries stay. */
  lemma AddedFacts(t: Tables, addr: Address, source: NetAddr, nTimePenalty: int, nNow: int, d: nat, u: Tables,
                   victim: int)
    requires t.Valid({}) && Added(t, addr, source, nTimePenalty, nNow, d, u, victim)
    ensures t.net.isRoutable(addr.service.ip) ==> addr.service.ip in u.mapAddr
    ensures KeepsOthers(t, u, t.net.NewBucket(t.nKey, addr.service.ip, source), victim, addr.service.ip)
  {
    var b := t.net.NewBucket(t.nKey, addr.service.ip, source);
    if !t.net.isRoutable(addr.service.ip) {
    } else if addr.service.ip in t.mapAddr {
      AddedKnown(t, addr, source, nTimePenalty, nNow, d, u, victim);
    } else {
      var info := NewInfo(addr, source, nTimePenalty);
      FreshValid(t, info);
      FreshKeeps(t, info, b);
      hide Tables.RandomOk, Tables.AddrOk, Tables.NewOk, Tables.TriedOk, Tables.CountsOk, Tables.SizesOk;
      hide Tables.Valid, Settled, Fresh, KeepsOthers;
      SettledKeeps(t, Fresh(t, info), b, t.nIdCount, nNow, d, victim, u);
    }
  }

  /** An unknown routable address gets the next id, a clean entry, and a place in one new bucket, that of its range and
      of the range it was heard from. */
  lemma AddedLands(t: Tables, addr: Address, source: NetAddr, nTimePenalty: int, nNow: int, d: nat, u: Tables,
                   victim: int)
    requires t.Valid({}) && Added(t, addr, source, nTimePenalty, nNow, d, u, victim)
    requires t.net.isRoutable(addr.service.ip) && addr.service.ip !in t.mapAddr
    ensures addr.service.ip in u.mapAddr && u.mapAddr[addr.service.ip] == t.nIdCount && t.nIdCount in u.mapInfo
    ensures var x := u.mapInfo[t.nIdCount];
      x == NewInfo(addr, source, nTimePenalty).(nRefCount := 1, nRandomPos := x.nRandomPos)
    ensures forall b :: 0 <= b < |u.vvNew| ==>
      (t.nIdCount in u.vvNew[b] <==> b == t.net.NewBucket(t.nKey, addr.service.ip, source))
  {
    hide Tables.RandomOk, Tables.NewOk, Tables.TriedOk, Tables.CountsOk, GivesWay;
    var info := NewInfo(addr, source, nTimePenalty);
    var b := t.net.NewBucket(t.nKey, addr.service.ip, source);
    var r := Fresh(t, info);
    ShapeOfValid(t);
    FreshNowhere(t, t.nIdCount);
    FreshValid(t, info);
    FreshKeeps(t, info, b);
    InBucket(t, b, {});
    if |t.vvNew[b]| == NEW_BUCKET_SIZE { DropRefFacts(r, b, victim); }
  }

  lemma FreshKeeps(t: Tables, info: AddrInfo, b: nat)
    requires t.Valid({}) && b < |t.vvNew|
    ensures Preserves(t, Fresh(t, info), t.nIdCount)
    ensures t.nIdCount in Fresh(t, info).mapInfo && !Fresh(t, info).mapInfo[t.nIdCount].fInTried
    ensures Fresh(t, info).mapInfo[t.nIdCount].service == info.service && t.nIdCount !in t.vvNew[b]
  {
    InBucket(t, b, {});
    assert t.nIdCount !in t.mapInfo;
  }

  /** The entries of t are in r, all but "id" unchanged, and the new buckets are the same. */
  ghost predicate Preserves(t: Tables, r: Tables, id: int) {
    && r.vvNew == t.vvNew
    && (forall x :: x in t.mapInfo ==> x in r.mapInfo && (x != id ==> r.mapInfo[x] == t.mapInfo[x]))
    && (id in t.mapInfo ==> r.mapInfo[id].service == t.mapInfo[id].service && !t.mapInfo[id].fInTried)
  }

  lemma SettledKeeps(t: Tables, r: Tables, b: nat, id: int, nNow: int, d: nat, victim: int, u: Tables)
    requires t.NewOk({}) && r.Valid({id}) && b < |r.vvNew| && id in r.mapInfo && !r.mapInfo[id].fInTried
    requires id !in r.vvNew[b]
    requires Preserves(t, r, id) && Settled(r, b, id, nNow, d, victim, u)
    ensures r.mapInfo[id].service.ip in u.mapAddr
    ensures KeepsOthers(t, u, b, victim, r.mapInfo[id].service.ip)
  {
    InBucketNew(t, b);
    SettledFacts(r, b, id, nNow, d, victim, u);
    hide Tables.RandomOk, Tables.AddrOk, Tables.NewOk, Tables.TriedOk, Tables.CountsOk, Tables.SizesOk, Settled;
  }

  lemma InBucketNew(t: Tables, b: nat)
    requires t.NewOk({}) && b < |t.vvNew|
    ensures forall id :: id in t.vvNew[b] ==> id in t.mapInfo && !t.mapInfo[id].fInTried
  {
  }

  lemma HeardSettles(t: Tables, id: int, addr: Address, nTimePenalty: int, nNow: int, b: nat)
    requires t.Valid({}) && id in t.mapInfo && b < |t.vvNew|
    ensures var s := Touch(t, id, Heard(t.mapInfo[id], addr, nTimePenalty, nNow));
      && s.Valid({}) && KeepsOthers(t, s, b, -1, t.mapInfo[id].service.ip)
      && (MayGrow(s.mapInfo[id], addr) ==> Raise(s, id).Valid({id}) && Preserves(t, Raise(s, id), id))
  {
    hide Tables.RandomOk, Tables.AddrOk, Tables.NewOk, Tables.TriedOk, Tables.CountsOk, Tables.SizesOk;
    var s := Touch(t, id, Heard(t.mapInfo[id], addr, nTimePenalty, nNow));
    InBucket(t, b, {});
    SameIp(t, id);
    TouchValid(t, id, Heard(t.mapInfo[id], addr, nTimePenalty, nNow));
    if MayGrow(s.mapInfo[id], addr) {
      MayGrowRoom(s, id);
      RaiseValid(s, id);
    }
  }

  /** Different ids have different addresses. */
  lemma SameIp(t: Tables, id: int)
    requires t.AddrOk() && id in t.mapInfo
    ensures forall x :: x in t.mapInfo && t.mapInfo[x].service.ip == t.mapInfo[id].service.ip ==> x == id
  {
  }

  lemma AddedKnown(t: Tables, addr: Address, source: NetAddr, nTimePenalty: int, nNow: int, d: nat, u: Tables,
                   victim: int)
    requires t.Valid({}) && Added(t, addr, source, nTimePenalty, nNow, d, u, victim)
    requires t.net.isRoutable(addr.service.ip) && addr.service.ip in t.mapAddr
    ensures addr.service.ip in u.mapAddr
    ensures KeepsOthers(t, u, t.net.NewBucket(t.nKey, addr.service.ip, source), victim, addr.service.ip)
  {
    hide Tables.RandomOk, Tables.NewOk, Tables.TriedOk, Tables.CountsOk, Tables.SizesOk, Heard, Settled;
    var b := t.net.NewBucket(t.nKey, addr.service.ip, source);
    var id := t.mapAddr[addr.service.ip];
    var s := Touch(t, id, Heard(t.mapInfo[id], addr, nTimePenalty, nNow));
    ShapeOfValid(t);
    HeardSettles(t, id, addr, nTimePenalty, nNow, b);
    if u != s {
      hide Tables.Valid, KeepsOthers;
      SettledKeeps(t, Raise(s, id), b, id, nNow, d + 1, victim, u);
    }
  }

  lemma SettledFacts(t: Tables, b: nat, id: int, nNow: int, d: nat, victim: int, u: Tables)
    requires t.Valid({id}) && b < |t.vvNew| && id in t.mapInfo && !t.mapInfo[id].fInTried && id !in t.vvNew[b]
    requires Settled(t, b, id, nNow, d, victim, u)
    ensures id in u.mapInfo && t.mapInfo[id].service.ip in u.mapAddr
    ensures forall x :: x in t.mapInfo && x !in u.mapInfo ==>
      x == victim && |t.vvNew[b]| == NEW_BUCKET_SIZE && x in t.vvNew[b] && t.mapInfo[x].nRefCount == 1
    ensures forall x :: x in t.mapInfo && x in u.mapInfo ==>
      u.mapInfo[x] == t.mapInfo[x].(nRandomPos := u.mapInfo[x].nRandomPos, nRefCount := u.mapInfo[x].nRefCount)
  {
    hide Tables.RandomOk, Tables.CountsOk, Tables.NewOk, Tables.TriedOk;
    InBucket(t, b, {id});
    SettledValid(t, b, id, nNow, d, victim, u);
    if |t.vvNew[b]| == NEW_BUCKET_SIZE {
      DropRefFacts(t, b, victim);
    }
  }

  // ----- GetAddr_

  lemma RepositionedTwice(t: Tables, u: Tables, v: Tables)
    requires Repositioned(t, u) && Repositioned(u, v)
    ensures Repositioned(t, v)
  {
  }

  lemma RepositionedNot(t: Tables)
    ensures Repositioned(t, t)
  {
  }

  lemma FrontSwapped(t: Tables, n: nat, p: nat)
    requires t.Valid({}) && n <= p < |t.vRandom|
    ensures t.vRandom[n] in t.mapInfo && t.vRandom[p] in t.mapInfo
    ensures var u, v := t.Swap(n, p), t.vRandom;
      && u.Valid({}) && (t.TimesOk() ==> u.TimesOk()) && Repositioned(t, u)
      && u.vRandom == v[p := v[n]][n := v[p]] && v[p] in u.mapInfo
  {
    SwapValid(t, n, p, {});
    SwapRepositions(t, n, p);
    assert t.vRandom[p] in t.mapInfo;
    hide Tables.AddrOk, Tables.CountsOk, Tables.NewOk, Tables.TriedOk, Tables.SizesOk, Tables.TimesOk;
  }

  lemma SameAddresses(t: Tables, u: Tables)
    requires Repositioned(t, u)
    ensures forall id :: id in t.mapInfo ==> id in u.mapInfo && AddressOf(u.mapInfo[id]) == AddressOf(t.mapInfo[id])
  {
    forall id | id in t.mapInfo ensures id in u.mapInfo && AddressOf(u.mapInfo[id]) == AddressOf(t.mapInfo[id]) {
      assert id in t.mapInfo.Keys;
    }
  }

  /** A share of all peers, up to a limit. */
  function AddrCount(n: nat): (k: nat)
    ensures k <= n
  {
    var k := GETADDR_MAX_PCT * n / 100;
    if k > GETADDR_MAX then GETADDR_MAX else k
  }

  /** What GetAddr_ does to the tables with the draws from d on: the places at the front of vRandom are drawn anew. */
  ghost predicate HandedOut(t: Tables, d: nat, u: Tables) {
    var v, k := t.vRandom, AddrCount(|t.vRandom|);
    Repositioned(t, u) && u.vRandom == Drawn(v, PlacesDrawn(t.net, d, |v|, k), k)
  }

  function AddressOf(info: AddrInfo): Address {
    Address(info.service, info.nServices, info.nTime)
  }

  /** Different places of vRandom hold entries for different network addresses. */
  lemma DistinctPeers(t: Tables, i: nat, j: nat)
    requires t.RandomOk() && t.AddrOk() && i < j < |t.vRandom|
    ensures t.vRandom[i] in t.mapInfo && t.vRandom[j] in t.mapInfo
    ensures t.mapInfo[t.vRandom[i]].service.ip != t.mapInfo[t.vRandom[j]].service.ip
  {
    var a, b := t.vRandom[i], t.vRandom[j];
    assert a in t.mapInfo && b in t.mapInfo && a != b;
  }
}
