/** CAddrMan of src/addrman.h and src/addrman.cpp: the operations on the tables. */
module AddrManager {
  import opened AddrTables
  import opened AddrMoves
  import opened AddrCheck
  import opened PowersOfTwo
  import Ascending

  function Min(a: int, b: int): int {
    if a < b then a else b
  }

  /** Tables without any entry. */
  function NoPeers(net: Net, nKey: seq<bv8>): Tables {
    Tables(net, nKey, 0, map[], map[], [], 0, seq(TRIED_BUCKET_COUNT, _ => []), 0, seq(NEW_BUCKET_COUNT, _ => {}))
  }

  class AddrMan {
    const net: Net
    var nKey: seq<bv8>
    var nIdCount: int
    var mapInfo: map<int, AddrInfo>
    var mapAddr: map<NetAddr, int>
    var vRandom: seq<int>
    var nTried: int
    var vvTried: seq<seq<int>>
    var nNew: int
    var vvNew: seq<set<int>>
    var nDraws: nat

    ghost function T(): Tables
      reads this
    {
      Tables(net, nKey, nIdCount, mapInfo, mapAddr, vRandom, nTried, vvTried, nNew, vvNew)
    }

    ghost predicate Valid()
      reads this
    {
      T().Valid({})
    }

    constructor (net: Net, nKey: seq<bv8>)
      ensures T() == NoPeers(net, nKey) && Valid() && T().TimesOk()
    {
      this.net, this.nKey := net, nKey;
      nIdCount, mapInfo, mapAddr, vRandom := 0, map[], map[], [];
      nTried, vvTried := 0, seq(TRIED_BUCKET_COUNT, _ => []);
      nNew, vvNew := 0, seq(NEW_BUCKET_COUNT, _ => {});
      nDraws := 0;
    }

    /** The next random number, below n. */
    method GetRandInt(n: nat) returns (r: nat)
      modifies this`nDraws
      ensures r == net.Rand(old(nDraws), n) && nDraws == old(nDraws) + 1 && T() == old(T())
    {
      r := net.Rand(nDraws, n);
      nDraws := nDraws + 1;
    }

    method Find(addr: NetAddr) returns (found: bool, nId: int)
      requires Valid()
      ensures found <==> addr in mapAddr
      ensures found ==> nId == mapAddr[addr] && nId in mapInfo && mapInfo[nId].service.ip == addr
    {
      if addr !in mapAddr { return false, -1; }
      nId := mapAddr[addr];
      return nId in mapInfo, nId;
    }

    method Create(addr: Address, source: NetAddr) returns (nId: int)
      requires Valid() && addr.service.ip !in mapAddr
      modifies this
      ensures nId == old(nIdCount) && nDraws == old(nDraws)
      ensures T() == old(T()).(nIdCount := nId + 1, vRandom := old(vRandom) + [nId],
                               mapAddr := old(mapAddr)[addr.service.ip := nId],
                               mapInfo := old(mapInfo)[nId := NewInfo(addr, source, 0).(nRandomPos := |old(vRandom)|)])
    {
      nId := nIdCount;
      nIdCount := nIdCount + 1;
      mapInfo := mapInfo[nId := AddrInfo(addr.service, addr.nServices, addr.nTime, source, 0, 0, 0, 0, false, -1)];
      mapAddr := mapAddr[addr.service.ip := nId];
      mapInfo := mapInfo[nId := mapInfo[nId].(nRandomPos := |vRandom|)];
      vRandom := vRandom + [nId];
    }

    method SwapRandom(nRndPos1: nat, nRndPos2: nat)
      requires nRndPos1 < |vRandom| && nRndPos2 < |vRandom| && T().RandomOk()
      modifies this`mapInfo, this`vRandom
      ensures T() == old(T()).Swap(nRndPos1, nRndPos2)
    {
      if nRndPos1 == nRndPos2 { return; }
      var nId1 := vRandom[nRndPos1];
      var nId2 := vRandom[nRndPos2];
      assert nId1 in mapInfo && nId2 in mapInfo;
      mapInfo := mapInfo[nId1 := mapInfo[nId1].(nRandomPos := nRndPos2)];
      mapInfo := mapInfo[nId2 := mapInfo[nId2].(nRandomPos := nRndPos1)];
      vRandom := vRandom[nRndPos1 := nId2];
      vRandom := vRandom[nRndPos2 := nId1];
    }

    /** Swaps place i of a tried bucket with a later one drawn at random. */
    method DrawPlace(nKBucket: nat, i: nat, ghost v: seq<int>, ghost d: nat) returns (nPos: nat)
      requires nKBucket < |vvTried| && Shuffled(v, vvTried[nKBucket]) && i < |v| && nDraws == d + i
      requires vvTried[nKBucket] == Drawn(v, PlacesDrawn(net, d, |v|, i), i)
      modifies this`vvTried, this`nDraws
      ensures i <= nPos < |v| && PlacesDrawn(net, d, |v|, i + 1) == PlacesDrawn(net, d, |v|, i) + [nPos]
      ensures var u := old(vvTried)[nKBucket];
        |u| == |v| && vvTried == old(vvTried)[nKBucket := u[nPos := u[i]][i := u[nPos]]]
      ensures nDraws == d + i + 1 && Shuffled(v, vvTried[nKBucket])
      ensures vvTried[nKBucket] == Drawn(v, PlacesDrawn(net, d, |v|, i + 1), i + 1)
    {
      var vTried := vvTried[nKBucket];
      assert |vTried| == |v|;
      hide Shuffled, Drawn, PlacesDrawn;
      var nRnd := GetRandInt(|vTried| - i);
      nPos := nRnd + i;
      var nTemp := vTried[nPos];
      ShuffledSwap(v, vTried, nPos, i);
      vvTried := vvTried[nKBucket := vTried[nPos := vTried[i]][i := nTemp]];
      DrawnStep(net, v, d, i);
    }

    /** Draws the first four places of a tried bucket anew and returns the draw of the place that then holds the least
        recent success among them. */
    method SelectTried(nKBucket: nat) returns (nOldestPos: int, ghost place: int)
      requires nKBucket < |vvTried| && NoRepeats(vvTried[nKBucket])
      requires forall id :: id in vvTried[nKBucket] ==> id in mapInfo && id >= 0
      modifies this`vvTried, this`nDraws
      ensures |vvTried| == |old(vvTried)| && vvTried == old(vvTried)[nKBucket := vvTried[nKBucket]]
      ensures Shuffled(old(vvTried)[nKBucket], vvTried[nKBucket])
      ensures nDraws == old(nDraws) + Min(4, |old(vvTried)[nKBucket]|)
      ensures var v := old(vvTried)[nKBucket];
        if v == [] then nOldestPos == -1
        else
          && 0 <= nOldestPos < |v|
          && Picks(mapInfo, v, vvTried[nKBucket], nOldestPos, PlacesDrawn(net, old(nDraws), |v|, Inspected(v)), place)
    {
      hide Shuffled, LeastOfFirst, Drawn, PlacesDrawn, NoRepeats, LegalDraws;
      var nOldest := -1;
      nOldestPos, place := -1, -1;
      var i := 0;
      ghost var v, d := vvTried[nKBucket], nDraws;
      NoneDrawn(net, v, d);
      SelfShuffled(v);
      while i < TRIED_ENTRIES_INSPECT_ON_EVICT && i < |vvTried[nKBucket]|
        invariant |vvTried| == |old(vvTried)| && vvTried == old(vvTried)[nKBucket := vvTried[nKBucket]]
        invariant Shuffled(v, vvTried[nKBucket])
        invariant 0 <= i <= Min(TRIED_ENTRIES_INSPECT_ON_EVICT, |v|) && |v| == |vvTried[nKBucket]|
        invariant nDraws == d + i && vvTried[nKBucket] == Drawn(v, PlacesDrawn(net, d, |v|, i), i)
        invariant if i == 0 then nOldest == -1 && nOldestPos == -1
                  else 0 <= place < i && LeastOfFirst(mapInfo, vvTried[nKBucket], i, place)
                       && nOldest == vvTried[nKBucket][place] >= 0 && nOldest in mapInfo
                       && nOldestPos == PlacesDrawn(net, d, |v|, i)[place]
      {
        ghost var vTried := vvTried[nKBucket];
        var nPos := DrawPlace(nKBucket, i, v, d);
        var nTemp := vvTried[nKBucket][i];
        MemberShuffled(v, vTried, nPos);
        LeastNext(mapInfo, vTried, i, nPos, place);
        if nOldest == -1 || mapInfo[nTemp].nLastSuccess < mapInfo[nOldest].nLastSuccess {
          nOldest := nTemp;
          nOldestPos := nPos;
          place := i;
        }
        i := i + 1;
      }
      InspectedLegal(net, v, d);
    }

    /** The first loop of ShrinkNew: the least id of the bucket whose entry is terrible. */
    method FirstTerrible(bucket: set<int>, nNow: int) returns (found: bool, id: int)
      requires forall x :: x in bucket ==> x in mapInfo
      ensures found ==> id in bucket && IsTerrible(mapInfo[id], nNow)
      ensures forall x :: x in bucket && (found ==> x < id) ==> !IsTerrible(mapInfo[x], nNow)
    {
      hide IsTerrible;
      var order := Ascending.Sequence(bucket);
      var i := 0;
      while i < |order|
        invariant 0 <= i <= |order|
        invariant forall j :: 0 <= j < i ==> !IsTerrible(mapInfo[order[j]], nNow)
      {
        if IsTerrible(mapInfo[order[i]], nNow) { return true, order[i]; }
        i := i + 1;
      }
      return false, -1;
    }

    /** The second loop of ShrinkNew: the least recently seen of the entries at four places. */
    method OldestOf(order: seq<int>, n: seq<int>) returns (nOldest: int)
      requires forall i :: 0 <= i < |order| ==> order[i] in mapInfo && order[i] >= 0
      requires forall i, j :: 0 <= i < j < |order| ==> order[i] < order[j]
      requires |n| == 4 && forall k :: 0 <= k < 4 ==> 0 <= n[k] < |order|
      ensures OldestAmong(mapInfo, order, n, |order|, nOldest)
    {
      nOldest := -1;
      var nI := 0;
      while nI < |order|
        invariant 0 <= nI <= |order|
        invariant if nOldest == -1 then forall k :: 0 <= k < 4 ==> nI <= n[k]
                  else OldestAmong(mapInfo, order, n, nI, nOldest)
      {
        if nI == n[0] || nI == n[1] || nI == n[2] || nI == n[3] {
          if nOldest == -1 || mapInfo[order[nI]].nTime < mapInfo[nOldest].nTime {
            nOldest := order[nI];
          }
        }
        nI := nI + 1;
      }
      assert n[0] < nI;
    }

    /** Takes one entry out of a new bucket: the first terrible one in id order, or else the least recently
        seen of four picked at random. */
    method ShrinkNew(nUBucket: nat, nNow: int, ghost pending: set<int>)
      returns (r: int, ghost victim: int)
      requires T().Valid(pending) && nUBucket < |vvNew| && |vvNew[nUBucket]| > 0
      requires forall id :: id in vvNew[nUBucket] ==> id !in pending
      modifies this
      ensures victim in old(vvNew)[nUBucket] && victim in old(mapInfo)
      ensures T() == old(T()).DropRef(nUBucket, victim)
      ensures T().Valid(pending) && (old(T()).TimesOk() ==> T().TimesOk())
      ensures GivesWay(net, old(mapInfo), old(vvNew)[nUBucket], nNow, old(nDraws), victim)
      ensures nDraws == old(nDraws) + if NoneTerrible(old(mapInfo), old(vvNew)[nUBucket], nNow) then 4 else 0
      ensures r == if NoneTerrible(old(mapInfo), old(vvNew)[nUBucket], nNow) then 1 else 0
    {
      hide Tables.RandomOk, Tables.AddrOk, Tables.NewOk, Tables.TriedOk, Tables.CountsOk, Tables.SizesOk,
        Tables.TimesOk;
      hide Tables.DropRef, IsTerrible;
      InBucket(T(), nUBucket, pending);
      var found, id := FirstTerrible(vvNew[nUBucket], nNow);
      if found {
        victim := id;
        TakeOut(nUBucket, id, pending);
        return 0, victim;
      }
      var nSize := |vvNew[nUBucket]|;
      var n0 := GetRandInt(nSize);
      var n1 := GetRandInt(nSize);
      var n2 := GetRandInt(nSize);
      var n3 := GetRandInt(nSize);
      hide OldestAmong;
      id := OldestOf(Ascending.Sequence(vvNew[nUBucket]), [n0, n1, n2, n3]);
      victim := id;
      assert [n0, n1, n2, n3] == FourPlaces(net, old(nDraws), nSize);
      assert OldestOfFour(mapInfo, vvNew[nUBucket], [n0, n1, n2, n3], id);
      TakeOut(nUBucket, id, pending);
      return 1, victim;
    }

    /** Deletes an entry by way of the last place of vRandom. */
    method DeleteEntry(id: int)
      requires T().RandomOk() && id in mapInfo
      modifies this
      ensures T() == old(T()).Forget(id) && vvNew == old(vvNew) && nDraws == old(nDraws)
    {
      SwapRandom(mapInfo[id].nRandomPos, |vRandom| - 1);
      vRandom := vRandom[..|vRandom| - 1];
      mapAddr := mapAddr - {mapInfo[id].service.ip};
      mapInfo := mapInfo - {id};
      nNew := nNew - 1;
    }

    /** The common tail of both branches of ShrinkNew. */
    method TakeOut(nUBucket: nat, id: int, ghost pending: set<int>)
      requires T().Valid(pending) && nUBucket < |vvNew| && id in vvNew[nUBucket] && id !in pending
      modifies this
      ensures id in old(mapInfo) && T() == old(T()).DropRef(nUBucket, id) && nDraws == old(nDraws)
      ensures T().Valid(pending) && (old(T()).TimesOk() ==> T().TimesOk())
    {
      hide Tables.RandomOk, Tables.AddrOk, Tables.NewOk, Tables.TriedOk, Tables.CountsOk, Tables.SizesOk,
        Tables.TimesOk;
      hide Tables.Forget;
      InBucket(T(), nUBucket, pending);
      DropRefValid(T(), nUBucket, id, pending);
      RecountKeeps(T(), id, mapInfo[id].(nRefCount := mapInfo[id].nRefCount - 1));
      mapInfo := mapInfo[id := mapInfo[id].(nRefCount := mapInfo[id].nRefCount - 1)];
      if mapInfo[id].nRefCount == 0 {
        DeleteEntry(id);
      }
      vvNew := vvNew[nUBucket := vvNew[nUBucket] - {id}];
    }

    /** Moves a new entry from all its new buckets to its tried bucket. A full tried bucket gives up the entry
        at position "pos" of its reordered contents w, which goes back to the new bucket "dest". */
    method MakeTried(nId: int, nOrigin: nat) returns (ghost w: seq<int>, ghost pos: int, ghost dest: nat)
      requires Valid() && nOrigin < |vvNew| && nId in vvNew[nOrigin]
      modifies this
      ensures nId in old(mapInfo) && Moved(old(T()), nId, nOrigin, old(nDraws), w, pos, dest, T())
      ensures Valid()
      ensures old(T()).TimesOk() && old(mapInfo)[nId].nLastSuccess > 0 ==> T().TimesOk()
    {
      hide Tables.RandomOk, Tables.AddrOk, Tables.CountsOk, Tables.TimesOk, Tables.TriedOk, Tables.NewOk,
        Tables.SizesOk;
      hide Moved, Shuffled, Selected, Strip;
      ghost var t := T();
      ShapeOfValid(t);
      InBucket(t, nOrigin, {});
      TriedShape(t);
      var nKBucket := net.TriedBucket(nKey, mapInfo[nId].service);
      LeaveNewBuckets(nId);
      nNew := nNew - 1;
      assert mapInfo[nId].nRefCount == 0;
      assert T() == Homeless(t, nId);
      w, pos, dest := vvTried[nKBucket], -1, 0;
      if |vvTried[nKBucket]| < TRIED_BUCKET_SIZE {
        vvTried := vvTried[nKBucket := vvTried[nKBucket] + [nId]];
        nTried := nTried + 1;
        mapInfo := mapInfo[nId := mapInfo[nId].(fInTried := true)];
        assert T() == Promote(t, nId, nKBucket, t.vvTried[nKBucket] + [nId]);
        PlacedMoved(t, nId, nOrigin, old(nDraws), nKBucket);
      } else {
        w, pos, dest := ReplaceTried(nId, nKBucket, nOrigin);
        SelectedAlike(net, Homeless(t, nId).mapInfo, t.mapInfo, t.vvTried[nKBucket], old(nDraws), w, pos);
        ReplacedMoved(t, nId, nOrigin, old(nDraws), nKBucket, w, pos, dest);
      }
      MovedValid(t, nId, nOrigin, old(nDraws), w, pos, dest, T());
    }

    /** The second half of MakeTried, for a full tried bucket. */
    method ReplaceTried(nId: int, nKBucket: nat, nOrigin: nat) returns (w: seq<int>, nPos: int, nDest: nat)
      requires nKBucket < |vvTried| && nId in mapInfo && nOrigin < |vvNew| == NEW_BUCKET_COUNT
      requires NoRepeats(vvTried[nKBucket]) && |vvTried[nKBucket]| > 0
      requires forall id :: id in vvTried[nKBucket] ==> id in mapInfo && id >= 0 && id != nId
      modifies this
      ensures Shuffled(old(vvTried)[nKBucket], w) && 0 <= nPos < |w| && w[nPos] in old(mapInfo) && w[nPos] != nId
      ensures Selected(net, old(mapInfo), old(vvTried)[nKBucket], old(nDraws), w, nPos)
      ensures nDest == RoomFor(old(T()), w[nPos], nOrigin)
      ensures T() == Replaced(old(T()), nId, nKBucket, w, nPos, nDest)
    {
      hide Drawn, LeastOfFirst;
      ghost var place;
      nPos, place := SelectTried(nKBucket);
      w := vvTried[nKBucket];
      var loser := w[nPos];
      assert loser in old(vvTried)[nKBucket] && loser in mapInfo;
      var nUBucket := net.NewBucket(nKey, mapInfo[loser].service.ip, mapInfo[loser].source);
      hide Shuffled, NoRepeats;
      mapInfo := mapInfo[loser := mapInfo[loser].(fInTried := false, nRefCount := 1)];
      if |vvNew[nUBucket]| < NEW_BUCKET_SIZE {
        nDest := nUBucket;
        vvNew := vvNew[nUBucket := vvNew[nUBucket] + {loser}];
      } else {
        nDest := nOrigin;
        vvNew := vvNew[nOrigin := vvNew[nOrigin] + {loser}];
      }
      nNew := nNew + 1;
      vvTried := vvTried[nKBucket := vvTried[nKBucket][nPos := nId]];
      mapInfo := mapInfo[nId := mapInfo[nId].(fInTried := true)];
    }

    /** The first loop of MakeTried: the entry leaves every new bucket, and its count comes down to zero. */
    method LeaveNewBuckets(nId: int)
      requires T().NewOk({}) && nId in mapInfo && !mapInfo[nId].fInTried
      modifies this`vvNew, this`mapInfo
      ensures vvNew == Strip(old(vvNew), nId)
      ensures mapInfo == old(mapInfo)[nId := old(mapInfo)[nId].(nRefCount := 0)]
    {
      var b := 0;
      assert mapInfo == mapInfo[nId := mapInfo[nId].(nRefCount := |Holders(vvNew, nId)|)];
      hide Tables.NewOk, Holders;
      while b < |vvNew|
        invariant 0 <= b <= |vvNew| == |old(vvNew)|
        invariant nId in mapInfo
        invariant mapInfo == old(mapInfo)[nId := old(mapInfo)[nId].(nRefCount := |Holders(vvNew, nId)|)]
        invariant forall c :: 0 <= c < |vvNew| ==> vvNew[c] == if c < b then old(vvNew)[c] - {nId} else old(vvNew)[c]
      {
        HoldersCount(vvNew, b, nId);
        if nId in vvNew[b] {
          mapInfo := mapInfo[nId := mapInfo[nId].(nRefCount := mapInfo[nId].nRefCount - 1)];
        }
        vvNew := vvNew[b := vvNew[b] - {nId}];
        b := b + 1;
      }
      StripHolders(old(vvNew), nId);
      assert vvNew == Strip(old(vvNew), nId);
    }

    /** Marks an entry good, moving it to the tried table. */
    method Good_(addr: Service, nTime: int)
      requires Valid()
      modifies this
      ensures HasShape(old(T())) && MarkedGood(old(T()), addr, nTime, old(nDraws), T())
      ensures Valid() && (old(T()).TimesOk() && nTime > 0 ==> T().TimesOk())
    {
      hide Tables.RandomOk, Tables.AddrOk, Tables.CountsOk, Tables.TimesOk, Tables.NewOk, Tables.TriedOk, Moved,
        FirstFrom, MarkedGood;
      ghost var t := T();
      ShapeOfValid(t);
      MarkedInPlace(t, addr, nTime, nDraws);
      var found, nId := Find(addr.ip);
      if !found || mapInfo[nId].service != addr { return; }
      mapInfo := mapInfo[nId :=
        mapInfo[nId].(nLastSuccess := nTime, nLastTry := nTime, nTime := ToTime32(nTime), nAttempts := 0)];
      ghost var s := Touch(t, nId, GoodInfo(t.mapInfo[nId], nTime));
      assert T() == s;
      TouchValid(t, nId, GoodInfo(t.mapInfo[nId], nTime));
      if mapInfo[nId].fInTried { return; }
      var nUBucket := BucketOf(nId);
      FirstFromHolds(vvNew, nId, net.Rand(old(nDraws), NEW_BUCKET_COUNT), nUBucket);
      ghost var w, pos, dest := MakeTried(nId, nUBucket);
      MarkedMoved(t, addr, nTime, old(nDraws), nUBucket, w, pos, dest, T());
    }

    /** The search of Good_ for a new bucket, which never comes back empty-handed. */
    method BucketOf(nId: int) returns (nUBucket: int)
      requires T().NewOk({}) && nId in mapInfo && !mapInfo[nId].fInTried
      modifies this`nDraws
      ensures nUBucket >= 0 && FirstFrom(vvNew, nId, net.Rand(old(nDraws), NEW_BUCKET_COUNT), nUBucket)
      ensures nDraws == old(nDraws) + 1 && T() == old(T())
    {
      var nRnd := GetRandInt(|vvNew|);
      nUBucket := -1;
      var n := 0;
      while n < |vvNew|
        invariant 0 <= n <= |vvNew|
        invariant nUBucket == -1
        invariant forall b :: 0 <= b < |vvNew| && (nRnd <= b < nRnd + n || b + |vvNew| < nRnd + n) ==> nId !in vvNew[b]
      {
        var nB := (n + nRnd) % |vvNew|;
        assert nB == if n + nRnd < |vvNew| then n + nRnd else n + nRnd - |vvNew|;
        if nId in vvNew[nB] {
          nUBucket := nB;
          break;
        }
        n := n + 1;
      }
      if nUBucket == -1 {
        ghost var b := SomeHolder(T(), nId);
        assert false;
      }
    }

    /** Marks a connection attempt. */
    method Attempt_(addr: Service, nTime: int)
      requires Valid()
      modifies this`mapInfo
      ensures T() == Attempted(old(T()), addr, nTime)
      ensures Valid() && (old(T()).TimesOk() && nTime >= 0 ==> T().TimesOk())
    {
      hide Tables.Valid, Tables.TimesOk;
      var found, nId := Find(addr.ip);
      if !found || mapInfo[nId].service != addr { return; }
      TouchValid(T(), nId, mapInfo[nId].(nLastTry := nTime, nAttempts := mapInfo[nId].nAttempts + 1));
      mapInfo := mapInfo[nId := mapInfo[nId].(nLastTry := nTime, nAttempts := mapInfo[nId].nAttempts + 1)];
    }

    /** Marks an entry as connected to. */
    method Connected_(addr: Service, nTime: int)
      requires Valid()
      modifies this`mapInfo
      ensures T() == Reached(old(T()), addr, nTime)
      ensures Valid() && (old(T()).TimesOk() ==> T().TimesOk())
    {
      hide Tables.Valid, Tables.TimesOk;
      var found, nId := Find(addr.ip);
      if !found || mapInfo[nId].service != addr { return; }
      TouchValid(T(), nId, mapInfo[nId].(nTime := ToTime32(nTime)));
      TouchSame(T(), nId);
      var nUpdateInterval := 20 * 60;
      if nTime - mapInfo[nId].nTime > nUpdateInterval {
        mapInfo := mapInfo[nId := mapInfo[nId].(nTime := ToTime32(nTime))];
      }
    }

    /** The last step of Add_: the entry enters a new bucket unless it is there already. */
    method Place(nId: int, nUBucket: nat, nNow: int) returns (ghost victim: int)
      requires nId in mapInfo && !mapInfo[nId].fInTried && nUBucket < |vvNew|
      requires nId in vvNew[nUBucket] || Raise(T(), nId).Valid({nId})
      modifies this
      ensures nId in old(vvNew)[nUBucket] ==> T() == old(T())
      ensures nId !in old(vvNew)[nUBucket] ==> 
        Settled(Raise(old(T()), nId), nUBucket, nId, nNow, old(nDraws), victim, T())
      ensures nId !in old(vvNew)[nUBucket] ==> Valid() && (old(T()).TimesOk() ==> T().TimesOk())
    {
      hide Tables.RandomOk, Tables.AddrOk, Tables.CountsOk, Tables.NewOk, Tables.TriedOk;
      victim := -1;
      if nId !in vvNew[nUBucket] {
        ghost var t := Raise(T(), nId);
        assert T().TimesOk() ==> t.TimesOk();
        hide Tables.TimesOk;
        mapInfo := mapInfo[nId := mapInfo[nId].(nRefCount := mapInfo[nId].nRefCount + 1)];
        assert T() == t;
        if |vvNew[nUBucket]| == NEW_BUCKET_SIZE {
          var r;
          r, victim := ShrinkNew(nUBucket, nNow, {nId});
        }
        vvNew := vvNew[nUBucket := vvNew[nUBucket] + {nId}];
        SettledValid(t, nUBucket, nId, nNow, old(nDraws), victim, T());
      }
    }

    /** The first branch of Add_: an entry heard of again. "more" asks for one more new bucket. */
    method Hear(nId: int, addr: Address, nTimePenalty: int, nNow: int)
      returns (more: bool)
      requires Valid() && nId in mapInfo && mapInfo[nId].service.ip == addr.service.ip
      modifies this`mapInfo, this`nDraws
      ensures T() == Touch(old(T()), nId, Heard(old(mapInfo)[nId], addr, nTimePenalty, nNow))
      ensures nId in mapInfo && mapInfo[nId].service.ip == addr.service.ip
      ensures Valid() && (old(T()).TimesOk() ==> T().TimesOk())
      ensures MayGrow(mapInfo[nId], addr) ==> mapInfo[nId].nRefCount >= 0 && Raise(T(), nId).Valid({nId})
      ensures more <==> MayGrow(mapInfo[nId], addr) && RepeatDraw(net, old(nDraws), mapInfo[nId]) == 0
      ensures nDraws == old(nDraws) + if MayGrow(mapInfo[nId], addr) then 1 else 0
    {
      hide Tables.RandomOk, Tables.AddrOk, Tables.CountsOk, Tables.NewOk, Tables.TriedOk, Tables.SizesOk,
        Tables.TimesOk;
      var fCurrentlyOnline := nNow - addr.nTime < 24 * 60 * 60;
      var nUpdateInterval := if fCurrentlyOnline then 60 * 60 else 24 * 60 * 60;
      var info := mapInfo[nId];
      if addr.nTime != 0 && (info.nTime == 0 || info.nTime < addr.nTime - nUpdateInterval - nTimePenalty) {
        info := info.(nTime := ToTime32(Max(0, addr.nTime - nTimePenalty)));
      }
      info := info.(nServices := info.nServices + addr.nServices);
      assert info == Heard(mapInfo[nId], addr, nTimePenalty, nNow);
      TouchValid(T(), nId, info);
      mapInfo := mapInfo[nId := info];
      assert T() == Touch(old(T()), nId, info);
      if addr.nTime == 0 || (info.nTime != 0 && addr.nTime <= info.nTime) { return false; }
      if info.fInTried { return false; }
      if info.nRefCount == NEW_BUCKETS_PER_ADDRESS { return false; }
      MayGrowRoom(T(), nId);
      var nFactor := 1;
      for n := 0 to info.nRefCount
        invariant nFactor == Pow2(n)
      {
        nFactor := nFactor * 2;
      }
      RaiseValid(T(), nId);
      var nRnd := GetRandInt(nFactor);
      return !(nFactor > 1 && nRnd != 0);
    }

    /** The second branch of Add_: an unknown address gets an entry that is in no bucket yet. */
    method Register(addr: Address, source: NetAddr, nTimePenalty: int) returns (nId: int)
      requires Valid() && addr.service.ip !in mapAddr
      modifies this
      ensures nDraws == old(nDraws)
      ensures nId == old(nIdCount) && nId in mapInfo && !mapInfo[nId].fInTried && vvNew == old(vvNew)
      ensures mapInfo[nId].service == addr.service && nKey == old(nKey)
      ensures Raise(T(), nId) == Fresh(old(T()), NewInfo(addr, source, nTimePenalty))
      ensures Raise(T(), nId).Valid({nId}) && (old(T()).TimesOk() ==> T().TimesOk())
    {
      hide Tables.RandomOk, Tables.AddrOk, Tables.CountsOk, Tables.NewOk, Tables.TriedOk, Tables.SizesOk;
      FreshValid(T(), NewInfo(addr, source, nTimePenalty));
      nId := Create(addr, source);
      mapInfo := mapInfo[nId := mapInfo[nId].(nTime := ToTime32(Max(0, mapInfo[nId].nTime - nTimePenalty)))];
      nNew := nNew + 1;
      assert Raise(T(), nId) == Fresh(old(T()), NewInfo(addr, source, nTimePenalty));
    }

    /** Adds an address heard from "source"; a full bucket first gives up one entry. */
    method Add_(addr: Address, source: NetAddr, nTimePenalty: int, nNow: int)
      returns (fNew: bool, ghost victim: int)
      requires Valid()
      modifies this
      ensures HasShape(old(T())) && Added(old(T()), addr, source, nTimePenalty, nNow, old(nDraws), T(), victim)
      ensures fNew <==> net.isRoutable(addr.service.ip) && addr.service.ip !in old(mapAddr)
      ensures Valid() && (old(T()).TimesOk() ==> T().TimesOk())
    {
      hide Tables.RandomOk, Tables.AddrOk, Tables.CountsOk, Tables.NewOk, Tables.TriedOk, Tables.TimesOk,
        Tables.SizesOk, Heard, Settled, Fresh, HasShape;
      ghost var t := T();
      ShapeOfValid(t);
      victim := -1;
      if !net.isRoutable(addr.service.ip) { return false, victim; }
      fNew := false;
      var found, nId := Find(addr.service.ip);
      if found {
        var more := Hear(nId, addr, nTimePenalty, nNow);
        if !more { return; }
      } else {
        nId := Register(addr, source, nTimePenalty);
        FreshNowhere(t, nId);
        fNew := true;
      }
      victim := Place(nId, net.NewBucket(nKey, mapInfo[nId].service.ip, source), nNow);
    }

    /** Swaps place n of vRandom with a later one drawn at random. */
    method DrawFront(n: nat, ghost v: seq<int>, ghost d: nat)
      requires Valid() && n < |vRandom| == |v| && nDraws == d + n
      requires vRandom == Drawn(v, PlacesDrawn(net, d, |v|, n), n)
      modifies this
      ensures Repositioned(old(T()), T()) && Valid() && (old(T()).TimesOk() ==> T().TimesOk())
      ensures nDraws == d + n + 1 && vRandom == Drawn(v, PlacesDrawn(net, d, |v|, n + 1), n + 1)
      ensures |vRandom| == |v| && vRandom[n] in mapInfo && forall k :: 0 <= k < n ==> vRandom[k] == old(vRandom)[k]
    {
      hide Drawn, PlacesDrawn, Repositioned, Tables.Swap, Tables.RandomOk, Tables.AddrOk, Tables.CountsOk, Tables.NewOk,
        Tables.TriedOk, Tables.SizesOk, Tables.TimesOk;
      var nRnd := GetRandInt(|vRandom| - n);
      FrontSwapped(T(), n, nRnd + n);
      SwapRandom(n, nRnd + n);
      DrawnStep(net, v, d, n);
    }

    /** Returns a random selection of distinct known peers, a fixed share of all of them. */
    method GetAddr_() returns (vAddr: seq<Address>)
      requires Valid()
      modifies this
      ensures |vAddr| == Min(2500, 23 * |vRandom| / 100)
      ensures |vAddr| <= |vRandom| && forall n :: 0 <= n < |vAddr| ==>
        vRandom[n] in mapInfo && vAddr[n] == AddressOf(mapInfo[vRandom[n]])
      ensures forall i, j :: 0 <= i < j < |vAddr| ==> vAddr[i].service.ip != vAddr[j].service.ip
      ensures HandedOut(old(T()), old(nDraws), T()) && nDraws == old(nDraws) + |vAddr|
      ensures Valid() && (old(T()).TimesOk() ==> T().TimesOk())
    {
      hide Drawn, PlacesDrawn, Repositioned;
      hide Tables.RandomOk, Tables.AddrOk, Tables.CountsOk, Tables.NewOk, Tables.TriedOk, Tables.SizesOk,
        Tables.TimesOk;
      RepositionedNot(T());
      var nNodes := GETADDR_MAX_PCT * |vRandom| / 100;
      if nNodes > GETADDR_MAX { nNodes := GETADDR_MAX; }
      vAddr := [];
      ghost var v, d := vRandom, nDraws;
      NoneDrawn(net, v, d);
      for n := 0 to nNodes
        invariant nDraws == d + n && vRandom == Drawn(v, PlacesDrawn(net, d, |v|, n), n)
        invariant Valid() && (old(T()).TimesOk() ==> T().TimesOk())
        invariant Repositioned(old(T()), T())
        invariant |vRandom| == |old(vRandom)| && |vAddr| == n
        invariant forall k :: 0 <= k < n ==> vRandom[k] in mapInfo && vAddr[k] == AddressOf(mapInfo[vRandom[k]])
      {
        ghost var t := T();
        DrawFront(n, v, d);
        RepositionedTwice(old(T()), t, T());
        SameAddresses(t, T());
        vAddr := vAddr + [AddressOf(mapInfo[vRandom[n]])];
      }
      forall i, j | 0 <= i < j < |vAddr| ensures vAddr[i].service.ip != vAddr[j].service.ip {
        DistinctPeers(T(), i, j);
      }
    }

    /** The consistency check: 0 exactly when the tables pass, which consistent ones with sensible times do. */
    method Check_() returns (code: int)
      modifies this`mapAddr
      ensures code == 0 <==> Checked(old(T()))
      ensures old(Valid()) ==> T() == old(T())
      ensures old(Valid() && T().TimesOk()) ==> code == 0
    {
      ghost var t := T();
      if t.Valid({}) && t.TimesOk() { ValidChecked(t); }
      RefKeys(mapInfo);
      hide Tables.RandomOk, Tables.NewOk, Tables.TriedOk, Tables.AddrOk, Tables.CountsOk, EntryOk, ListsOnce, RefsExact;
      if |vRandom| != nTried + nNew { return -7; }
      var tables := Tables(net, nKey, nIdCount, mapInfo, mapAddr, vRandom, nTried, vvTried, nNew, vvNew);
      var setTried, mapNew;
      code, setTried, mapNew, mapAddr := CheckEntries(tables);
      if code != 0 { return; }
      if |setTried| != nTried { return -9; }
      if |mapNew| != nNew { return -10; }
      PositiveRefs(t);
      code, setTried := CheckTried(vvTried, setTried);
      if code != 0 { return; }
      code, mapNew := CheckNew(vvNew, mapNew);
      if code != 0 { return; }
      if |setTried| != 0 { return -13; }
      if |mapNew| != 0 { return -15; }
    }
  }

  // ----- whole runs

  datatype Op =
    | OpAdd(addr: Address, source: NetAddr, nTimePenalty: int, nNow: int)
    | OpGood(service: Service, nTime: int)
    | OpAttempt(service: Service, nTime: int)
    | OpConnected(service: Service, nTime: int)
    | OpGetAddr

  /** Good_ with a positive time, and Attempt_ with a non-negative one. */
  predicate SensibleTime(op: Op) {
    (op.OpGood? ==> op.nTime > 0) && (op.OpAttempt? ==> op.nTime >= 0)
  }

  /** What an operation does to consistent tables with the draws from d on. */
  ghost predicate SteppedAt(t: Tables, op: Op, d: nat, u: Tables)
    requires t.Valid({})
  {
    ShapeOfValid(t);
    match op
    case OpAdd(addr, source, nTimePenalty, nNow) =>
      exists victim :: Added(t, addr, source, nTimePenalty, nNow, d, u, victim)
    case OpGood(service, nTime) => MarkedGood(t, service, nTime, d, u)
    case OpAttempt(service, nTime) => u == Attempted(t, service, nTime)
    case OpConnected(service, nTime) => u == Reached(t, service, nTime)
    case OpGetAddr => HandedOut(t, d, u)
  }

  ghost predicate Stepped(t: Tables, op: Op, u: Tables)
    requires t.Valid({})
  {
    exists d: nat :: SteppedAt(t, op, d, u)
  }

  /** The tables before each operation of a run and after the last: empty at first, always consistent. */
  ghost predicate History(net: Net, nKey: seq<bv8>, ops: seq<Op>, states: seq<Tables>) {
    && |states| == |ops| + 1 && states[0] == NoPeers(net, nKey)
    && (forall i :: 0 <= i <= |ops| ==> states[i].Valid({}))
    && (forall i :: 0 <= i < |ops| ==> Stepped(states[i], ops[i], states[i + 1]))
  }

  predicate AllSensible(ops: seq<Op>) {
    forall i :: 0 <= i < |ops| ==> SensibleTime(ops[i])
  }

  /** One operation, whatever it is. */
  method Perform(m: AddrMan, op: Op)
    requires m.Valid()
    modifies m
    ensures SteppedAt(old(m.T()), op, old(m.nDraws), m.T()) && Stepped(old(m.T()), op, m.T())
    ensures m.Valid() && (SensibleTime(op) && old(m.T().TimesOk()) ==> m.T().TimesOk())
  {
    hide Tables.Valid, Tables.TimesOk, Added, MarkedGood, Attempted, Reached, HandedOut;
    match op {
      case OpAdd(addr, source, nTimePenalty, nNow) =>
        ghost var victim;
        var fNew;
        fNew, victim := m.Add_(addr, source, nTimePenalty, nNow);
      case OpGood(service, nTime) => m.Good_(service, nTime);
      case OpAttempt(service, nTime) => m.Attempt_(service, nTime);
      case OpConnected(service, nTime) => m.Connected_(service, nTime);
      case OpGetAddr => var vAddr := m.GetAddr_();
    }
  }

  lemma HistoryNext(net: Net, nKey: seq<bv8>, ops: seq<Op>, states: seq<Tables>, op: Op, u: Tables)
    requires History(net, nKey, ops, states) && Stepped(states[|ops|], op, u) && u.Valid({})
    ensures History(net, nKey, ops + [op], states + [u])
  {
    hide Tables.Valid, Stepped, NoPeers;
  }

  /** Every run from the empty manager. The ghost result is its history; after every operation up to which the times are
      sensible the tables pass the consistency check. */
  method Run(net: Net, nKey: seq<bv8>, ops: seq<Op>) returns (m: AddrMan, ghost states: seq<Tables>)
    ensures fresh(m) && History(net, nKey, ops, states) && m.T() == states[|ops|]
    ensures forall i :: 0 <= i <= |ops| && AllSensible(ops[..i]) ==> states[i].TimesOk() && Checked(states[i])
  {
    hide Tables.Valid, Tables.TimesOk, Checked, History, Stepped, AllSensible;
    m := new AddrMan(net, nKey);
    states := [m.T()];
    HistoryStarts(net, nKey);
    ValidChecked(m.T());
    for i := 0 to |ops|
      invariant fresh(m) && m.Valid() && |states| == i + 1 && m.T() == states[i]
      invariant History(net, nKey, ops[..i], states)
      invariant forall k :: 0 <= k <= i && AllSensible(ops[..k]) ==> states[k].TimesOk() && Checked(states[k])
    {
      Perform(m, ops[i]);
      HistoryNext(net, nKey, ops[..i], states, ops[i], m.T());
      assert ops[..i + 1] == ops[..i] + [ops[i]];
      SensibleStep(ops, i);
      states := states + [m.T()];
      if AllSensible(ops[..i + 1]) {
        var code := m.Check_();
        assert code == 0;
      }
    }
    assert ops[..|ops|] == ops;
  }

  lemma HistoryStarts(net: Net, nKey: seq<bv8>)
    requires NoPeers(net, nKey).Valid({})
    ensures History(net, nKey, [], [NoPeers(net, nKey)])
  {
  }

  lemma SensibleStep(ops: seq<Op>, i: nat)
    requires i < |ops|
    ensures AllSensible(ops[..i + 1]) ==> AllSensible(ops[..i]) && SensibleTime(ops[i])
  {
    if AllSensible(ops[..i + 1]) {
      forall k | 0 <= k < i ensures SensibleTime(ops[..i][k]) { assert ops[..i + 1][k] == ops[k]; }
      assert ops[..i + 1][i] == ops[i];
    }
  }
}
