/** Writing the address manager to a stream and reading it back (the serialization block of src/addrman.h). */
module AddrDisk {
  import opened AddrTables
  import opened AddrCheck
  import opened AddrManager
  import Ascending

  /** The fields of an entry that are written; the others live in memory only. */
  datatype DiskInfo = DiskInfo(
    service: Service, nServices: set<nat>, nTime: Time32, source: NetAddr, nLastSuccess: int, nAttempts: int)

  /** The stream, section by section. */
  datatype Image = Image(
    nKey: seq<bv8>, nNew: int, nTried: int, nUBuckets: int,
    news: seq<DiskInfo>, trieds: seq<DiskInfo>, buckets: seq<seq<int>>)

  function Persist(info: AddrInfo): DiskInfo {
    DiskInfo(info.service, info.nServices, info.nTime, info.source, info.nLastSuccess, info.nAttempts)
  }

  function Restored(d: DiskInfo): AddrInfo {
    AddrInfo(d.service, d.nServices, d.nTime, d.source, 0, d.nLastSuccess, d.nAttempts, 0, false, -1)
  }

  /** The new and tried ids in the order of the stream. */
  ghost predicate Order(t: Tables, newIds: seq<int>, triedIds: seq<int>) {
    && NoRepeats(newIds) && (forall x :: x in newIds <==> x in NewIds(t.mapInfo))
    && NoRepeats(triedIds) && (forall x :: x in triedIds <==> x in TriedIds(t.mapInfo))
  }

  /** A bucket of the stream lists the places of its ids. */
  ghost predicate SameBucket(bucket: seq<int>, ids: set<int>, newIds: seq<int>) {
    && NoRepeats(bucket)
    && (forall j :: j in bucket ==> 0 <= j < |newIds|)
    && (forall j :: 0 <= j < |newIds| ==> (j in bucket <==> newIds[j] in ids))
  }

  /** The stream holds exactly what the tables hold. */
  ghost predicate Represents(img: Image, t: Tables, newIds: seq<int>, triedIds: seq<int>) {
    && Order(t, newIds, triedIds)
    && img.nKey == t.nKey && img.nNew == t.nNew && img.nTried == t.nTried
    && img.nUBuckets == NEW_BUCKET_COUNT == |t.vvNew| == |img.buckets|
    && |img.news| == |newIds| == t.nNew && |img.trieds| == |triedIds| == t.nTried
    && (forall i :: 0 <= i < |newIds| ==> newIds[i] in t.mapInfo && img.news[i] == Persist(t.mapInfo[newIds[i]]))
    && (forall i :: 0 <= i < |triedIds| ==>
      triedIds[i] in t.mapInfo && img.trieds[i] == Persist(t.mapInfo[triedIds[i]]))
    && (forall b :: 0 <= b < |t.vvNew| ==> SameBucket(img.buckets[b], t.vvNew[b], newIds))
  }

  /** All entries of the stream: the id of an entry read back is its place here. */
  function All(img: Image): seq<DiskInfo> {
    img.news + img.trieds
  }

  /** The entry at place x is a tried one before place n, and k is its tried bucket. */
  predicate Lives(net: Net, img: Image, n: int, k: int, x: int) {
    |img.news| <= x < n <= |All(img)| && net.TriedBucket(img.nKey, All(img)[x].service) == k
  }

  function Home(net: Net, img: Image, k: int): set<int> {
    set x | |img.news| <= x < |All(img)| && Lives(net, img, |All(img)|, k, x)
  }

  function Listing(buckets: seq<seq<int>>, j: int): set<int> {
    set b | 0 <= b < |buckets| && j in buckets[b]
  }

  /** What a stream must be like for the tables read from it to be consistent. */
  ghost predicate Sound(net: Net, img: Image) {
    && img.nNew == |img.news| && img.nTried == |img.trieds| && img.nUBuckets == NEW_BUCKET_COUNT == |img.buckets|
    && (forall i, j :: 0 <= i < j < |All(img)| ==> All(img)[i].service.ip != All(img)[j].service.ip)
    && (forall k :: |Home(net, img, k)| <= TRIED_BUCKET_SIZE)
    && (forall b :: 0 <= b < |img.buckets| ==> NoRepeats(img.buckets[b]) && |img.buckets[b]| <= NEW_BUCKET_SIZE)
    && (forall b, j :: 0 <= b < |img.buckets| && j in img.buckets[b] ==> 0 <= j < img.nNew)
    && (forall j :: 0 <= j < img.nNew ==> 1 <= |Listing(img.buckets, j)| <= NEW_BUCKETS_PER_ADDRESS)
  }

  // ----- a stream of consistent tables is sound

  lemma SoundListing(img: Image, t: Tables, newIds: seq<int>, triedIds: seq<int>, j: int)
    requires Represents(img, t, newIds, triedIds) && 0 <= j < |newIds|
    ensures Listing(img.buckets, j) == Holders(t.vvNew, newIds[j])
  {
    forall b: int ensures b in Listing(img.buckets, j) <==> b in Holders(t.vvNew, newIds[j]) {
      if 0 <= b < |img.buckets| { assert SameBucket(img.buckets[b], t.vvNew[b], newIds); }
    }
  }

  lemma IdAt(img: Image, t: Tables, newIds: seq<int>, triedIds: seq<int>, i: int)
    requires Represents(img, t, newIds, triedIds) && 0 <= i < |All(img)|
    ensures var id := (newIds + triedIds)[i]; id in t.mapInfo && All(img)[i] == Persist(t.mapInfo[id])
    ensures (newIds + triedIds)[i] in (if i < |newIds| then NewIds(t.mapInfo) else TriedIds(t.mapInfo))
  {
    if i < |newIds| {
      assert newIds[i] in newIds;
    } else {
      assert triedIds[i - |newIds|] in triedIds;
    }
  }

  lemma IdsDistinct(img: Image, t: Tables, newIds: seq<int>, triedIds: seq<int>)
    requires Represents(img, t, newIds, triedIds)
    ensures NoRepeats(newIds + triedIds)
  {
    forall x | x in triedIds ensures x !in newIds {
      assert x in TriedIds(t.mapInfo);
    }
    NoRepeatsAppend(newIds, triedIds);
  }

  /** The entries of one home fill no more than one tried bucket. */
  lemma SoundHome(img: Image, t: Tables, newIds: seq<int>, triedIds: seq<int>, k: int)
    requires Represents(img, t, newIds, triedIds) && t.TriedOk() && t.SizesOk()
    ensures |Home(t.net, img, k)| <= TRIED_BUCKET_SIZE
  {
    var home := Home(t.net, img, k);
    if 0 <= k < |t.vvTried| {
      var ids := newIds + triedIds;
      var members: set<int> := set x | x in t.vvTried[k];
      IdsDistinct(img, t, newIds, triedIds);
      forall x | x in home ensures 0 <= x < |ids| && ids[x] in members {
        IdAt(img, t, newIds, triedIds, x);
        var id := ids[x];
        assert id in TriedIds(t.mapInfo) && id in t.mapInfo && t.mapInfo[id].fInTried;
      }
      InjectionSize(home, members, ids);
      Enumerates(t.vvTried[k], members);
    } else {
      assert home == {};
    }
  }

  lemma {:induction false} InjectionSize(a: set<int>, b: set<int>, f: seq<int>)
    requires NoRepeats(f) && forall x :: x in a ==> 0 <= x < |f| && f[x] in b
    ensures |a| <= |b|
    decreases |a|
  {
    if |a| > 0 {
      Ascending.SomeElement(a);
      var x :| x in a;
      InjectionSize(a - {x}, b - {f[x]}, f);
    }
  }

  lemma SoundBucket(bucket: seq<int>, ids: set<int>, newIds: seq<int>)
    requires SameBucket(bucket, ids, newIds) && NoRepeats(newIds)
    ensures |bucket| <= |ids|
  {
    var places: set<int> := set j | j in bucket;
    Enumerates(bucket, places);
    InjectionSize(places, ids, newIds);
  }

  lemma SoundIndexes(img: Image, t: Tables, newIds: seq<int>, triedIds: seq<int>)
    requires Represents(img, t, newIds, triedIds) && t.SizesOk()
    ensures forall b :: 0 <= b < |img.buckets| ==> NoRepeats(img.buckets[b]) && |img.buckets[b]| <= NEW_BUCKET_SIZE
    ensures forall b, j :: 0 <= b < |img.buckets| && j in img.buckets[b] ==> 0 <= j < img.nNew
  {
    forall b | 0 <= b < |img.buckets| ensures NoRepeats(img.buckets[b]) && |img.buckets[b]| <= NEW_BUCKET_SIZE {
      assert SameBucket(img.buckets[b], t.vvNew[b], newIds);
      SoundBucket(img.buckets[b], t.vvNew[b], newIds);
    }
    forall b, j | 0 <= b < |img.buckets| && j in img.buckets[b] ensures 0 <= j < img.nNew {
      assert SameBucket(img.buckets[b], t.vvNew[b], newIds);
    }
  }

  lemma SoundAddresses(img: Image, t: Tables, newIds: seq<int>, triedIds: seq<int>)
    requires Represents(img, t, newIds, triedIds) && t.AddrOk()
    ensures forall i, j :: 0 <= i < j < |All(img)| ==> All(img)[i].service.ip != All(img)[j].service.ip
  {
    var ids := newIds + triedIds;
    IdsDistinct(img, t, newIds, triedIds);
    forall i, j | 0 <= i < j < |All(img)| ensures All(img)[i].service.ip != All(img)[j].service.ip {
      IdAt(img, t, newIds, triedIds, i);
      IdAt(img, t, newIds, triedIds, j);
      var a, b := ids[i], ids[j];
      assert a != b && a in t.mapInfo && b in t.mapInfo;
    }
  }

  /** What is written from consistent tables can be read back. */
  lemma RepresentsSound(img: Image, t: Tables, newIds: seq<int>, triedIds: seq<int>)
    requires Represents(img, t, newIds, triedIds) && t.Valid({})
    ensures Sound(t.net, img)
  {
    SoundAddresses(img, t, newIds, triedIds);
    SoundIndexes(img, t, newIds, triedIds);
    forall k ensures |Home(t.net, img, k)| <= TRIED_BUCKET_SIZE {
      SoundHome(img, t, newIds, triedIds, k);
    }
    forall j | 0 <= j < img.nNew ensures 1 <= |Listing(img.buckets, j)| <= NEW_BUCKETS_PER_ADDRESS {
      SoundListing(img, t, newIds, triedIds, j);
      SoundRef(t, newIds[j]);
      assert newIds[j] in newIds;
      var id := newIds[j];
      assert id in NewIds(t.mapInfo);
    }
    hide Tables.RandomOk, Tables.AddrOk, Tables.NewOk, Tables.TriedOk, Tables.CountsOk, Tables.SizesOk, Home,
      SameBucket;
  }

  lemma SoundRef(t: Tables, id: int)
    requires t.NewOk({})
    ensures id in NewIds(t.mapInfo) ==> 1 <= |Holders(t.vvNew, id)| <= NEW_BUCKETS_PER_ADDRESS
  {
  }

  // ----- writing

  /** As many different members as the set has are all of them. */
  lemma AllListed(s: seq<int>, ids: set<int>)
    requires NoRepeats(s) && (forall x :: x in s ==> x in ids) && |s| == |ids|
    ensures forall x :: x in s <==> x in ids
  {
    var members: set<int> := set x | x in s;
    Enumerates(s, members);
    assert ids == members + (ids - members);
    assert ids - members == {};
    forall x | x in ids ensures x in s {
      assert x !in ids - members;
    }
  }

  /** The listing "ids" of those members of "among" that lie in the first part of the walk. */
  ghost predicate Listed(ids: seq<int>, walked: seq<int>, among: set<int>) {
    NoRepeats(ids) && forall x :: x in ids <==> x in walked && x in among
  }

  lemma ListedStep(ids: seq<int>, order: seq<int>, i: nat, among: set<int>)
    requires i < |order| && NoRepeats(order) && Listed(ids, order[..i], among)
    ensures order[i] !in ids
    ensures Listed(if order[i] in among then ids + [order[i]] else ids, order[..i + 1], among)
  {
    assert order[..i + 1] == order[..i] + [order[i]];
    assert forall j :: 0 <= j < i ==> order[..i][j] != order[i];
  }

  lemma ListedDone(ids: seq<int>, order: seq<int>, i: nat, all: set<int>, among: set<int>)
    requires i <= |order| && Listed(ids, order[..i], among) && Ascending.Lists(order, all) && among <= all
    requires i == |order| || |ids| == |among|
    ensures forall x :: x in ids <==> x in among
    ensures |ids| == |among|
  {
    if |ids| == |among| {
      AllListed(ids, among);
    } else {
      assert order[..i] == order;
      forall x ensures x in ids <==> x in among {}
    }
    Enumerates(ids, among);
  }

  /** The first loop: the new entries in id order, numbering them. */
  method WriteNews(mapInfo: map<int, AddrInfo>, nNew: int)
    returns (news: seq<DiskInfo>, mapUnkIds: map<int, int>, ghost newIds: seq<int>)
    requires forall id :: id in mapInfo ==> (mapInfo[id].nRefCount != 0 <==> !mapInfo[id].fInTried)
    requires nNew == |NewIds(mapInfo)|
    ensures NoRepeats(newIds) && forall x :: x in newIds <==> x in NewIds(mapInfo)
    ensures |news| == |newIds| == nNew
    ensures forall i :: 0 <= i < |newIds| ==> newIds[i] in mapInfo && news[i] == Persist(mapInfo[newIds[i]])
    ensures forall i :: 0 <= i < |newIds| ==> newIds[i] in mapUnkIds && mapUnkIds[newIds[i]] == i
  {
    news, mapUnkIds, newIds := [], map[], [];
    var order := Ascending.Sequence(mapInfo.Keys);
    var nIds, i := 0, 0;
    hide Ascending.Sequence;
    while i < |order|
      invariant 0 <= i <= |order| && |news| == |newIds| == nIds
      invariant Listed(newIds, order[..i], NewIds(mapInfo))
      invariant forall j :: 0 <= j < |newIds| ==> newIds[j] in mapInfo && news[j] == Persist(mapInfo[newIds[j]])
      invariant forall j :: 0 <= j < |newIds| ==> newIds[j] in mapUnkIds && mapUnkIds[newIds[j]] == j
    {
      if nIds == nNew { break; }
      ListedStep(newIds, order, i, NewIds(mapInfo));
      hide Listed, Ascending.Lists;
      var id := order[i];
      mapUnkIds := mapUnkIds[id := nIds];
      if mapInfo[id].nRefCount != 0 {
        news := news + [Persist(mapInfo[id])];
        newIds := newIds + [id];
        nIds := nIds + 1;
      }
      i := i + 1;
    }
    ListedDone(newIds, order, i, mapInfo.Keys, NewIds(mapInfo));
  }

  /** The second loop: the tried entries in id order. */
  method WriteTrieds(mapInfo: map<int, AddrInfo>, nTried: int) returns (trieds: seq<DiskInfo>, ghost triedIds: seq<int>)
    requires nTried == |TriedIds(mapInfo)|
    ensures NoRepeats(triedIds) && forall x :: x in triedIds <==> x in TriedIds(mapInfo)
    ensures |trieds| == |triedIds| == nTried
    ensures forall i :: 0 <= i < |triedIds| ==> triedIds[i] in mapInfo && trieds[i] == Persist(mapInfo[triedIds[i]])
  {
    trieds, triedIds := [], [];
    var order := Ascending.Sequence(mapInfo.Keys);
    var nIds, i := 0, 0;
    hide Ascending.Sequence;
    while i < |order|
      invariant 0 <= i <= |order| && |trieds| == |triedIds| == nIds
      invariant Listed(triedIds, order[..i], TriedIds(mapInfo))
      invariant forall j :: 0 <= j < |triedIds| ==> triedIds[j] in mapInfo && trieds[j] == Persist(mapInfo[triedIds[j]])
    {
      if nIds == nTried { break; }
      ListedStep(triedIds, order, i, TriedIds(mapInfo));
      hide Listed, Ascending.Lists;
      var id := order[i];
      if mapInfo[id].fInTried {
        trieds := trieds + [Persist(mapInfo[id])];
        triedIds := triedIds + [id];
        nIds := nIds + 1;
      }
      i := i + 1;
    }
    ListedDone(triedIds, order, i, mapInfo.Keys, TriedIds(mapInfo));
  }

  /** One pass of the third loop: the members of a new bucket by their numbers. */
  method WriteBucket(vNew: set<int>, mapUnkIds: map<int, int>, ghost newIds: seq<int>) returns (bucket: seq<int>)
    requires NoRepeats(newIds) && forall x :: x in vNew ==> x in newIds
    requires forall i :: 0 <= i < |newIds| ==> newIds[i] in mapUnkIds && mapUnkIds[newIds[i]] == i
    ensures SameBucket(bucket, vNew, newIds)
  {
    bucket := [];
    var order := Ascending.Sequence(vNew);
    assert forall i :: 0 <= i < |order| ==> order[i] in vNew && order[i] in newIds;
    var i := 0;
    while i < |order|
      invariant 0 <= i == |bucket| <= |order|
      invariant forall j :: 0 <= j < i ==> 0 <= bucket[j] < |newIds| && newIds[bucket[j]] == order[j]
    {
      var nIndex := if order[i] in mapUnkIds then mapUnkIds[order[i]] else 0;
      bucket := bucket + [nIndex];
      i := i + 1;
    }
    WrittenBucket(bucket, order, vNew, newIds);
  }

  lemma WrittenBucket(bucket: seq<int>, order: seq<int>, ids: set<int>, newIds: seq<int>)
    requires |bucket| == |order| && Ascending.Lists(order, ids) && NoRepeats(newIds)
    requires forall j :: 0 <= j < |order| ==> 0 <= bucket[j] < |newIds| && newIds[bucket[j]] == order[j]
    ensures SameBucket(bucket, ids, newIds)
  {
    forall j | 0 <= j < |newIds| ensures j in bucket <==> newIds[j] in ids {
      if newIds[j] in ids {
        var id := newIds[j];
        assert id in order;
        var k :| 0 <= k < |order| && order[k] == id;
        assert bucket[k] == j;
      }
    }
  }

  method Write(m: AddrMan) returns (img: Image)
    requires m.Valid()
    ensures exists newIds, triedIds :: Represents(img, m.T(), newIds, triedIds)
  {
    ghost var t := m.T();
    Written(t);
    hide Tables.Valid;
    var news, trieds, mapUnkIds;
    ghost var newIds, triedIds;
    news, mapUnkIds, newIds := WriteNews(m.mapInfo, m.nNew);
    trieds, triedIds := WriteTrieds(m.mapInfo, m.nTried);
    var buckets: seq<seq<int>> := [];
    var b := 0;
    while b < |m.vvNew|
      invariant 0 <= b == |buckets| <= |m.vvNew|
      invariant forall c :: 0 <= c < b ==> SameBucket(buckets[c], m.vvNew[c], newIds)
    {
      forall x | x in m.vvNew[b] ensures x in newIds { assert x in NewIds(t.mapInfo); }
      hide SameBucket;
      var bucket := WriteBucket(m.vvNew[b], mapUnkIds, newIds);
      buckets := buckets + [bucket];
      b := b + 1;
    }
    img := Image(m.nKey, m.nNew, m.nTried, NEW_BUCKET_COUNT, news, trieds, buckets);
    hide SameBucket;
    assert Represents(img, m.T(), newIds, triedIds);
  }

  lemma Written(t: Tables)
    requires t.Valid({})
    ensures forall id :: id in t.mapInfo ==> (t.mapInfo[id].nRefCount != 0 <==> !t.mapInfo[id].fInTried)
    ensures t.nNew == |NewIds(t.mapInfo)| && t.nTried == |TriedIds(t.mapInfo)| && |t.vvNew| == NEW_BUCKET_COUNT
    ensures forall b, x :: 0 <= b < |t.vvNew| && x in t.vvNew[b] ==> x in NewIds(t.mapInfo)
  {
  }

  // ----- reading

  /** The entry at place i of the stream, as loaded under the id i. */
  function Loaded(img: Image, i: nat): AddrInfo
    requires i < |All(img)|
  {
    Restored(All(img)[i]).(nRandomPos := i, fInTried := i >= |img.news|)
  }

  /** The first n entries are loaded, in all indexes. */
  ghost predicate Loading(t: Tables, img: Image, n: nat)
    requires n <= |All(img)|
  {
    && (forall id :: id in t.mapInfo <==> 0 <= id < n)
    && (forall id :: 0 <= id < n ==> t.mapInfo[id] == Loaded(img, id))
    && |t.vRandom| == n && (forall i :: 0 <= i < n ==> t.vRandom[i] == i)
    && (forall id :: 0 <= id < n ==> All(img)[id].service.ip in t.mapAddr && t.mapAddr[All(img)[id].service.ip] == id)
    && (forall a :: a in t.mapAddr ==> 0 <= t.mapAddr[a] < n && All(img)[t.mapAddr[a]].service.ip == a)
  }

  /** The tried entries among the first n are in their buckets. */
  ghost predicate Housed(t: Tables, img: Image, n: nat)
    requires n <= |All(img)|
  {
    && |t.vvTried| == TRIED_BUCKET_COUNT
    && (forall k :: 0 <= k < |t.vvTried| ==> NoRepeats(t.vvTried[k]))
    && (forall k, x :: 0 <= k < |t.vvTried| ==> (x in t.vvTried[k] <==> Lives(t.net, img, n, k, x)))
  }

  /** The first n entries of new bucket b, and all before it, are filled in, and counted. */
  ghost predicate Filled(t: Tables, img: Image, b: nat, n: nat)
    requires b <= |img.buckets| && (b < |img.buckets| ==> n <= |img.buckets[b]|)
  {
    FilledBuckets(t, img, b, n) && FilledInfo(t, img)
  }

  ghost predicate FilledBuckets(t: Tables, img: Image, b: nat, n: nat)
    requires b <= |img.buckets| && (b < |img.buckets| ==> n <= |img.buckets[b]|)
  {
    && |t.vvNew| == NEW_BUCKET_COUNT == |img.buckets|
    && (forall c, j :: 0 <= c < b ==> (j in t.vvNew[c] <==> j in img.buckets[c]))
    && (forall j :: b < |img.buckets| ==> (j in t.vvNew[b] <==> j in img.buckets[b][..n]))
    && (forall c :: b < c < |t.vvNew| ==> t.vvNew[c] == {})
  }

  ghost predicate FilledInfo(t: Tables, img: Image) {
    && (forall id :: id in t.mapInfo <==> 0 <= id < |All(img)|)
    && (forall id :: 0 <= id < |All(img)| ==>
          t.mapInfo[id] == Loaded(img, id).(nRefCount := if id < |img.news| then |Holders(t.vvNew, id)| else 0))
  }

  /** A full tried bucket could only come from an unsound stream. */
  lemma RoomInHome(t: Tables, img: Image, n: nat)
    requires Sound(t.net, img) && |img.news| <= n < |All(img)| && Housed(t, img, n)
    ensures |t.vvTried[t.net.TriedBucket(img.nKey, All(img)[n].service)]| < TRIED_BUCKET_SIZE
  {
    var k := t.net.TriedBucket(img.nKey, All(img)[n].service);
    var members: set<int> := set x | x in t.vvTried[k];
    Enumerates(t.vvTried[k], members);
    forall x | x in members + {n} ensures x in Home(t.net, img, k) {
      assert x in members ==> Lives(t.net, img, n, k, x);
      assert Lives(t.net, img, |All(img)|, k, x);
    }
    SubsetSize(members + {n}, Home(t.net, img, k));
    assert n !in members;
  }

  lemma LoadOne(t: Tables, img: Image, n: nat, u: Tables)
    requires n < |All(img)| && Loading(t, img, n)
    requires forall i, j :: 0 <= i < j < |All(img)| ==> All(img)[i].service.ip != All(img)[j].service.ip
    requires u.mapInfo == t.mapInfo[n := Loaded(img, n)] && u.vRandom == t.vRandom + [n]
    requires u.mapAddr == t.mapAddr[All(img)[n].service.ip := n]
    ensures Loading(u, img, n + 1)
  {
  }

  lemma HouseOne(t: Tables, img: Image, n: nat, u: Tables)
    requires |img.news| <= n < |All(img)| && Housed(t, img, n) && u.net == t.net
    requires var k := t.net.TriedBucket(img.nKey, All(img)[n].service); u.vvTried == t.vvTried[k := t.vvTried[k] + [n]]
    ensures Housed(u, img, n + 1)
  {
    var k := t.net.TriedBucket(img.nKey, All(img)[n].service);
    assert !Lives(t.net, img, n, k, n) && n !in t.vvTried[k];
    forall j, x | 0 <= j < |u.vvTried| ensures x in u.vvTried[j] <==> Lives(t.net, img, n + 1, j, x) {
      assert x in t.vvTried[j] <==> Lives(t.net, img, n, j, x);
      assert x in u.vvTried[j] <==> x in t.vvTried[j] || (j == k && x == n);
    }
  }

  lemma FillOne(t: Tables, img: Image, b: nat, n: nat, u: Tables)
    requires Sound(t.net, img) && b < |img.buckets| && n < |img.buckets[b]| && Filled(t, img, b, n)
    requires var j := img.buckets[b][n]; j in t.mapInfo && u.vvNew == t.vvNew[b := t.vvNew[b] + {j}]
    requires var j := img.buckets[b][n];
      u.mapInfo == t.mapInfo[j := t.mapInfo[j].(nRefCount := t.mapInfo[j].nRefCount + 1)]
    ensures Filled(u, img, b, n + 1)
  {
    SoundEntry(t.net, img, b, n);
    hide Sound, FilledInfo;
    FillBucket(t, img, b, n, u);
    FillInfo(t, img, b, n, u);
  }

  lemma SoundEntry(net: Net, img: Image, b: nat, n: nat)
    requires Sound(net, img) && b < |img.buckets| && n < |img.buckets[b]|
    ensures 0 <= img.buckets[b][n] < |img.news| && NoRepeats(img.buckets[b])
  {
    assert img.buckets[b][n] in img.buckets[b];
  }

  lemma FillBucket(t: Tables, img: Image, b: nat, n: nat, u: Tables)
    requires b < |img.buckets| && n < |img.buckets[b]| && FilledBuckets(t, img, b, n)
    requires u.vvNew == t.vvNew[b := t.vvNew[b] + {img.buckets[b][n]}]
    ensures FilledBuckets(u, img, b, n + 1)
  {
    assert img.buckets[b][..n + 1] == img.buckets[b][..n] + [img.buckets[b][n]];
  }

  lemma FillInfo(t: Tables, img: Image, b: nat, n: nat, u: Tables)
    requires b < |img.buckets| && n < |img.buckets[b]| && FilledBuckets(t, img, b, n) && FilledInfo(t, img)
    requires 0 <= img.buckets[b][n] < |img.news| && NoRepeats(img.buckets[b])
    requires var j := img.buckets[b][n]; j in t.mapInfo && u.vvNew == t.vvNew[b := t.vvNew[b] + {j}]
    requires var j := img.buckets[b][n];
      u.mapInfo == t.mapInfo[j := t.mapInfo[j].(nRefCount := t.mapInfo[j].nRefCount + 1)]
    ensures FilledInfo(u, img)
  {
    var j := img.buckets[b][n];
    HoldersInsert(t.vvNew, b, j);
    assert j !in img.buckets[b][..n];
    assert j !in t.vvNew[b];
    assert b !in Holders(t.vvNew, j);
    hide Holders, FilledBuckets, Loaded, All, NoRepeats;
  }

  /** No entry of a sound stream reaches the limit on references early. */
  lemma RefRoom(t: Tables, img: Image, b: nat, n: nat)
    requires Sound(t.net, img) && b < |img.buckets| && n < |img.buckets[b]| && Filled(t, img, b, n)
    ensures var j := img.buckets[b][n];
      j in t.mapInfo && 0 <= j < |img.news| && t.mapInfo[j].nRefCount < NEW_BUCKETS_PER_ADDRESS
  {
    var j := img.buckets[b][n];
    assert j in img.buckets[b];
    var held, all := Holders(t.vvNew, j), Listing(img.buckets, j);
    assert j !in img.buckets[b][..n];
    forall c | b < c < |t.vvNew| ensures j !in t.vvNew[c] {}
    forall c | c in held ensures c in all && c != b {}
    assert b in all;
    SubsetSize(held, all - {b});
  }

  /** Everything read: the tables are consistent and hold what the stream holds. */
  lemma ReadValid(t: Tables, img: Image)
    requires Sound(t.net, img) && t.nKey == img.nKey && t.nIdCount == |All(img)|
    requires t.nNew == img.nNew && t.nTried == img.nTried
    requires IndexesLoaded(t, img) && Housed(t, img, |All(img)|) && Filled(t, img, |img.buckets|, 0)
    ensures t.Valid({})
  {
    assert |All(img)| == |img.news| + |img.trieds|;
    assert t.RandomOk() && t.AddrOk();
    ReadNewOk(t, img);
    ReadTriedOk(t, img);
    ReadCounts(t, img);
    ReadSizes(t, img);
  }

  /** The indexes of a complete load; entries may have gained references since. */
  ghost predicate IndexesLoaded(t: Tables, img: Image) {
    && |t.vRandom| == |All(img)| && (forall i :: 0 <= i < |t.vRandom| ==> t.vRandom[i] == i)
    && (forall id :: 0 <= id < |All(img)| ==>
      All(img)[id].service.ip in t.mapAddr && t.mapAddr[All(img)[id].service.ip] == id)
    && (forall a :: a in t.mapAddr ==> 0 <= t.mapAddr[a] < |All(img)| && All(img)[t.mapAddr[a]].service.ip == a)
  }

  lemma ReadNewOk(t: Tables, img: Image)
    requires Sound(t.net, img) && Filled(t, img, |img.buckets|, 0)
    ensures t.NewOk({})
  {
    forall id | id in t.mapInfo && !t.mapInfo[id].fInTried
      ensures 1 <= |Holders(t.vvNew, id)| <= NEW_BUCKETS_PER_ADDRESS
    {
      forall c: int ensures c in Holders(t.vvNew, id) <==> c in Listing(img.buckets, id) {}
      assert Holders(t.vvNew, id) == Listing(img.buckets, id);
    }
  }

  lemma ReadTriedOk(t: Tables, img: Image)
    requires t.nKey == img.nKey && Housed(t, img, |All(img)|) && Filled(t, img, |img.buckets|, 0)
    ensures t.TriedOk()
  {
    forall k, x | 0 <= k < |t.vvTried| && x in t.vvTried[k]
      ensures x in t.mapInfo && t.mapInfo[x].fInTried && t.net.TriedBucket(t.nKey, t.mapInfo[x].service) == k
    {
      assert Lives(t.net, img, |All(img)|, k, x);
    }
    forall x | x in t.mapInfo && t.mapInfo[x].fInTried
      ensures t.mapInfo[x].nRefCount == 0 && x in t.vvTried[t.net.TriedBucket(t.nKey, t.mapInfo[x].service)]
    {
      assert Lives(t.net, img, |All(img)|, t.net.TriedBucket(t.nKey, t.mapInfo[x].service), x);
    }
  }

  lemma {:induction false} RangeSize(s: set<int>, a: int, b: int)
    requires a <= b && forall x :: x in s <==> a <= x < b
    ensures |s| == b - a
    decreases b - a
  {
    if a < b {
      RangeSize(s - {a}, a + 1, b);
    } else {
      forall x ensures x !in s {}
      assert s == {};
    }
  }

  lemma ReadCounts(t: Tables, img: Image)
    requires Filled(t, img, |img.buckets|, 0) && t.nNew == |img.news| && t.nTried == |img.trieds|
    ensures t.CountsOk()
  {
    forall x: int ensures x in NewIds(t.mapInfo) <==> 0 <= x < |img.news| {}
    forall x: int ensures x in TriedIds(t.mapInfo) <==> |img.news| <= x < |All(img)| {}
    RangeSize(NewIds(t.mapInfo), 0, |img.news|);
    RangeSize(TriedIds(t.mapInfo), |img.news|, |All(img)|);
  }

  lemma ReadSizes(t: Tables, img: Image)
    requires Sound(t.net, img) && Housed(t, img, |All(img)|) && Filled(t, img, |img.buckets|, 0)
    ensures t.SizesOk()
  {
    forall b | 0 <= b < |t.vvNew| ensures |t.vvNew[b]| <= NEW_BUCKET_SIZE {
      Enumerates(img.buckets[b], t.vvNew[b]);
    }
    forall k | 0 <= k < |t.vvTried| ensures |t.vvTried[k]| <= TRIED_BUCKET_SIZE {
      forall x: int ensures x in t.vvTried[k] <==> x in Home(t.net, img, k) {}
      Enumerates(t.vvTried[k], Home(t.net, img, k));
    }
  }

  // ----- what holds of any stream

  /** How many ids the tried buckets hold. */
  ghost function Held(vvTried: seq<seq<int>>): nat {
    if vvTried == [] then 0 else |vvTried[0]| + Held(vvTried[1..])
  }

  lemma {:induction false} HeldOneMore(vvTried: seq<seq<int>>, k: nat, id: int)
    requires k < |vvTried|
    ensures Held(vvTried[k := vvTried[k] + [id]]) == Held(vvTried) + 1
  {
    var w := vvTried[k := vvTried[k] + [id]];
    if k == 0 {
      assert w[1..] == vvTried[1..];
    } else {
      HeldOneMore(vvTried[1..], k - 1, id);
      assert w[1..] == vvTried[1..][k - 1 := vvTried[1..][k - 1] + [id]];
    }
  }

  lemma {:induction false} HeldNone(vvTried: seq<seq<int>>)
    requires forall k :: 0 <= k < |vvTried| ==> vvTried[k] == []
    ensures Held(vvTried) == 0
  {
    if vvTried != [] { HeldNone(vvTried[1..]); }
  }

  /** No tried bucket is over its size, whatever was read. */
  ghost predicate WithinSize(vvTried: seq<seq<int>>) {
    |vvTried| == TRIED_BUCKET_COUNT && forall k :: 0 <= k < |vvTried| ==> |vvTried[k]| <= 64
  }

  /** No entry has more than four references. */
  ghost predicate FewRefs(m: map<int, AddrInfo>) {
    forall id :: id in m ==> m[id].nRefCount <= 4
  }

  lemma BoundsRead(vvTried: seq<seq<int>>, m: map<int, AddrInfo>)
    requires WithinSize(vvTried) && FewRefs(m)
    ensures |vvTried| == 64 && forall k :: 0 <= k < 64 ==> |vvTried[k]| <= 64
    ensures forall id :: id in m ==> m[id].nRefCount <= 4
  {
  }

  /** Reads a stream with the current number of new buckets; false when it is too short. Whatever the stream says, no
      tried bucket outgrows its size, those lost for lack of room are counted, and no entry gets more than four
      references. */
  method Read(m: AddrMan, img: Image) returns (ok: bool, nLost: nat)
    requires img.nUBuckets == NEW_BUCKET_COUNT
    modifies m
    ensures ok <==> img.nNew <= |img.news| && img.nTried <= |img.trieds| && NEW_BUCKET_COUNT <= |img.buckets|
    ensures |m.vvTried| == 64 && (forall k :: 0 <= k < 64 ==> |m.vvTried[k]| <= 64)
    ensures forall id :: id in m.mapInfo ==> m.mapInfo[id].nRefCount <= 4
    ensures ok && img.nTried >= 0 ==> m.nTried == Held(m.vvTried) && nLost == img.nTried - m.nTried
    ensures Sound(m.net, img) ==> ok && nLost == 0 && m.Valid()
    ensures Sound(m.net, img) ==> Represents(img, m.T(), Places(0, |img.news|), Places(|img.news|, |All(img)|))
    ensures Sound(m.net, img) ==> Untried(m.T())
  {
    hide Sound, Housed, Filled, IndexesLoaded, FewRefs, WithinSize, Held;
    ok, nLost := ReadEntries(m, img);
    BoundsRead(m.vvTried, m.mapInfo);
    if !ok { return; }
    ghost var t := m.T();
    ok := ReadBuckets(m, img);
    BoundsRead(m.vvTried, m.mapInfo);
    if Sound(m.net, img) {
      SameIndexes(t, m.T(), img);
      ReadValid(m.T(), img);
      ReadRepresents(m.T(), img);
      ReadUntried(m.T(), img);
    }
    hide Tables.Valid, Represents;
  }

  /** No connection has been attempted since the tables were loaded. */
  ghost predicate Untried(t: Tables) {
    forall id :: id in t.mapInfo ==> t.mapInfo[id].nLastTry == 0
  }

  lemma ReadUntried(t: Tables, img: Image)
    requires Filled(t, img, |img.buckets|, 0)
    ensures Untried(t)
  {
    hide FilledBuckets, Holders;
  }

  /** The counters of the stream and empty tables. */
  method Reset(m: AddrMan, img: Image)
    modifies m
    ensures m.nKey == img.nKey && m.nNew == img.nNew && m.nTried == img.nTried
    ensures |m.vvNew| == NEW_BUCKET_COUNT && |m.vvTried| == TRIED_BUCKET_COUNT
    ensures (forall b :: 0 <= b < NEW_BUCKET_COUNT ==> m.vvNew[b] == {})
    ensures (forall k :: 0 <= k < TRIED_BUCKET_COUNT ==> m.vvTried[k] == []) && Loading(m.T(), img, 0)
    ensures FewRefs(m.mapInfo)
  {
    m.nKey, m.nNew, m.nTried := img.nKey, img.nNew, img.nTried;
    m.nIdCount, m.mapInfo, m.mapAddr, m.vRandom := 0, map[], map[], [];
    m.vvTried := seq(TRIED_BUCKET_COUNT, _ => []);
    m.vvNew := seq(NEW_BUCKET_COUNT, _ => {});
  }

  /** The first part: clears everything and reads the new and the tried entries. */
  method ReadEntries(m: AddrMan, img: Image) returns (ok: bool, nLost: nat)
    modifies m
    ensures |m.vvNew| == NEW_BUCKET_COUNT && m.nKey == img.nKey && m.nNew == img.nNew
    ensures ok <==> img.nNew <= |img.news| && img.nTried <= |img.trieds|
    ensures WithinSize(m.vvTried) && FewRefs(m.mapInfo)
    ensures ok && img.nTried >= 0 ==> m.nTried == Held(m.vvTried) && nLost == img.nTried - m.nTried
    ensures Sound(m.net, img) ==> ok && nLost == 0 && m.nTried == img.nTried && m.nIdCount == |All(img)|
    ensures Sound(m.net, img) ==>
      Housed(m.T(), img, |All(img)|) && IndexesLoaded(m.T(), img) && Filled(m.T(), img, 0, 0)
  {
    hide Sound, Filled, IndexesLoaded, Loading, Housed, TriedsRead;
    Reset(m, img);
    HeldNone(m.vvTried);
    hide FewRefs, WithinSize, Held;
    if Sound(m.net, img) { SoundCounts(m.net, img); }
    ok := ReadNews(m, img);
    nLost := 0;
    if !ok { return; }
    ghost var t := m.T();
    m.nIdCount := m.nNew;
    if Sound(m.net, img) { TriedsStart(t, m.T(), img); }
    ok, nLost := ReadTrieds(m, img);
    if !ok { return; }
    t := m.T();
    m.nTried := m.nTried - nLost;
    if Sound(m.net, img) {
      assert m.T() == t;
      FilledStart(t, img);
    }
  }

  lemma TriedsStart(t: Tables, u: Tables, img: Image)
    requires Loading(t, img, |img.news|) && u == t.(nIdCount := |img.news|) && |t.vvTried| == TRIED_BUCKET_COUNT
    requires forall k :: 0 <= k < |t.vvTried| ==> t.vvTried[k] == []
    ensures TriedsRead(u, img, 0)
  {
  }

  /** The ids a reader hands out in a row. */
  function Places(a: int, b: int): seq<int>
    requires a <= b
  {
    seq(b - a, i requires 0 <= i => a + i)
  }

  method ReadNews(m: AddrMan, img: Image) returns (ok: bool)
    requires m.nNew == img.nNew && Loading(m.T(), img, 0) && FewRefs(m.mapInfo)
    modifies m`mapInfo, m`mapAddr, m`vRandom
    ensures FewRefs(m.mapInfo) && (ok <==> img.nNew <= |img.news|)
    ensures Sound(m.net, img) ==> ok && Loading(m.T(), img, |img.news|)
  {
    if Sound(m.net, img) { SoundCounts(m.net, img); DistinctAddresses(m.net, img); }
    hide Sound;
    var n := 0;
    while n < m.nNew
      invariant 0 <= n <= |img.news| && (m.nNew >= 0 ==> n <= m.nNew) && FewRefs(m.mapInfo)
      invariant Sound(m.net, img) ==> n <= |img.news| && Loading(m.T(), img, n)
    {
      if n >= |img.news| { return false; }
      ghost var t := m.T();
      var info := Restored(img.news[n]);
      m.mapInfo := m.mapInfo[n := info];
      m.mapAddr := m.mapAddr[info.service.ip := n];
      m.mapInfo := m.mapInfo[n := m.mapInfo[n].(nRandomPos := |m.vRandom|)];
      m.vRandom := m.vRandom + [n];
      if Sound(m.net, img) { LoadOne(t, img, n, m.T()); }
      n := n + 1;
    }
    return true;
  }

  lemma SoundCounts(net: Net, img: Image)
    requires Sound(net, img)
    ensures img.nNew == |img.news| && img.nTried == |img.trieds|
  {
  }

  lemma SameIndexes(t: Tables, u: Tables, img: Image)
    requires Housed(t, img, |All(img)|) && IndexesLoaded(t, img)
    requires u.vRandom == t.vRandom && u.mapAddr == t.mapAddr && u.vvTried == t.vvTried && u.net == t.net
    ensures Housed(u, img, |All(img)|) && IndexesLoaded(u, img)
  {
  }

  method ReadTrieds(m: AddrMan, img: Image) returns (ok: bool, nLost: nat)
    requires m.nTried == img.nTried && WithinSize(m.vvTried) && m.nKey == img.nKey && FewRefs(m.mapInfo)
    requires Sound(m.net, img) ==> TriedsRead(m.T(), img, 0)
    modifies m`mapInfo, m`mapAddr, m`vRandom, m`vvTried, m`nIdCount
    ensures (ok <==> img.nTried <= |img.trieds|) && WithinSize(m.vvTried) && FewRefs(m.mapInfo)
    ensures ok && img.nTried >= 0 ==> Held(m.vvTried) + nLost == Held(old(m.vvTried)) + img.nTried
    ensures ok && img.nTried < 0 ==> nLost == 0
    ensures Sound(m.net, img) ==> ok && nLost == 0 && TriedsRead(m.T(), img, |img.trieds|)
  {
    hide Sound;
    nLost := 0;
    if Sound(m.net, img) { SoundCounts(m.net, img); }
    var n := 0;
    while n < m.nTried
      invariant 0 <= n <= |img.trieds| && (m.nTried >= 0 ==> n <= m.nTried) && (m.nTried < 0 ==> n == 0) && nLost <= n
      invariant WithinSize(m.vvTried) && FewRefs(m.mapInfo) && Held(m.vvTried) + nLost == Held(old(m.vvTried)) + n
      invariant Sound(m.net, img) ==> nLost == 0 && n <= |img.trieds| && TriedsRead(m.T(), img, n)
    {
      hide TriedsRead, WithinSize, FewRefs, Held;
      if n >= |img.trieds| { return false, nLost; }
      var kept := ReadTried(m, img, n);
      if !kept { nLost := nLost + 1; }
      n := n + 1;
    }
    ok := true;
  }

  /** All new entries and the first n tried ones have been read. */
  ghost predicate TriedsRead(t: Tables, img: Image, n: nat) {
    && n <= |img.trieds| && t.nIdCount == |img.news| + n
    && Loading(t, img, |img.news| + n) && Housed(t, img, |img.news| + n)
  }

  /** One pass of the loop over the tried entries. */
  method ReadTried(m: AddrMan, img: Image, n: nat) returns (kept: bool)
    requires n < |img.trieds| && WithinSize(m.vvTried) && m.nKey == img.nKey && FewRefs(m.mapInfo)
    requires Sound(m.net, img) ==> TriedsRead(m.T(), img, n)
    modifies m`mapInfo, m`mapAddr, m`vRandom, m`vvTried, m`nIdCount
    ensures WithinSize(m.vvTried) && FewRefs(m.mapInfo)
    ensures Held(m.vvTried) == Held(old(m.vvTried)) + if kept then 1 else 0
    ensures kept <==> |old(m.vvTried)[m.net.TriedBucket(m.nKey, img.trieds[n].service)]| < 64
    ensures kept <==> m.T() != old(m.T())
    ensures Sound(m.net, img) ==> kept && TriedsRead(m.T(), img, n + 1)
  {
    ghost var t := m.T();
    if Sound(m.net, img) { RoomInHome(t, img, |img.news| + n); }
    assert Sound(m.net, img) ==> m.nIdCount == |img.news| + n && |m.vRandom| == |img.news| + n;
    hide Loading, Housed, Sound, TriedsRead, Lives;
    var info := Restored(img.trieds[n]);
    var k := m.net.TriedBucket(m.nKey, info.service);
    kept := |m.vvTried[k]| < TRIED_BUCKET_SIZE;
    if kept {
      HeldOneMore(m.vvTried, k, m.nIdCount);
      info := info.(nRandomPos := |m.vRandom|, fInTried := true);
      m.vRandom := m.vRandom + [m.nIdCount];
      m.mapInfo := m.mapInfo[m.nIdCount := info];
      m.mapAddr := m.mapAddr[info.service.ip := m.nIdCount];
      m.vvTried := m.vvTried[k := m.vvTried[k] + [m.nIdCount]];
      m.nIdCount := m.nIdCount + 1;
      if Sound(m.net, img) { LoadedNext(t, img, n, m.T()); }
    }
  }

  lemma LoadedNext(t: Tables, img: Image, n: nat, u: Tables)
    requires n < |img.trieds| && TriedsRead(t, img, n) && Sound(t.net, img) && u.net == t.net
    requires u.nIdCount == t.nIdCount + 1 && u.vRandom == t.vRandom + [t.nIdCount]
    requires u.mapInfo == t.mapInfo[t.nIdCount := Restored(img.trieds[n]).(nRandomPos := |t.vRandom|, fInTried := true)]
    requires u.mapAddr == t.mapAddr[img.trieds[n].service.ip := t.nIdCount]
    requires var k := t.net.TriedBucket(img.nKey, img.trieds[n].service);
      k < |t.vvTried| && u.vvTried == t.vvTried[k := t.vvTried[k] + [t.nIdCount]]
    ensures TriedsRead(u, img, n + 1)
  {
    var place := |img.news| + n;
    assert |t.vRandom| == place && All(img)[place] == img.trieds[n];
    hide Loading, Housed, Sound;
    HouseOne(t, img, place, u);
    DistinctAddresses(t.net, img);
    LoadOne(t, img, place, u);
  }

  lemma DistinctAddresses(net: Net, img: Image)
    requires Sound(net, img)
    ensures forall i, j :: 0 <= i < j < |All(img)| ==> All(img)[i].service.ip != All(img)[j].service.ip
  {
  }

  /** The entry operator[] makes for a missing id. */
  const NO_ENTRY := AddrInfo(Service(0, 0), {0}, 100000000, 0, 0, 0, 0, 0, false, -1)

  method ReadBuckets(m: AddrMan, img: Image) returns (ok: bool)
    requires img.nUBuckets == NEW_BUCKET_COUNT == |m.vvNew| && FewRefs(m.mapInfo)
    requires Sound(m.net, img) ==> Filled(m.T(), img, 0, 0)
    modifies m`mapInfo, m`vvNew
    ensures (ok <==> NEW_BUCKET_COUNT <= |img.buckets|) && FewRefs(m.mapInfo)
    ensures Sound(m.net, img) ==> ok && Filled(m.T(), img, |img.buckets|, 0)
  {
    if Sound(m.net, img) { assert img.nUBuckets == |img.buckets|; }
    hide Sound;
    var b := 0;
    while b < img.nUBuckets
      invariant 0 <= b <= img.nUBuckets == |m.vvNew| && b <= |img.buckets| && FewRefs(m.mapInfo)
      invariant Sound(m.net, img) ==> Filled(m.T(), img, b, 0)
    {
      if b >= |img.buckets| { return false; }
      hide Filled;
      var n := 0;
      while n < |img.buckets[b]|
        invariant 0 <= n <= |img.buckets[b]| && |m.vvNew| == NEW_BUCKET_COUNT && FewRefs(m.mapInfo)
        invariant Sound(m.net, img) ==> Filled(m.T(), img, b, n)
      {
        ReadIndex(m, img, b, n);
        n := n + 1;
      }
      if Sound(m.net, img) { FilledNext(m.T(), img, b); }
      b := b + 1;
    }
    ok := true;
  }

  /** One pass of the inner loop over the new buckets. */
  method ReadIndex(m: AddrMan, img: Image, b: nat, n: nat)
    requires b < |img.buckets| && b < |m.vvNew| == NEW_BUCKET_COUNT && n < |img.buckets[b]| && FewRefs(m.mapInfo)
    requires Sound(m.net, img) ==> Filled(m.T(), img, b, n)
    modifies m`mapInfo, m`vvNew
    ensures |m.vvNew| == NEW_BUCKET_COUNT && FewRefs(m.mapInfo)
    ensures Sound(m.net, img) ==> Filled(m.T(), img, b, n + 1)
  {
    hide Sound, Filled;
    ghost var t := m.T();
    if Sound(m.net, img) { RefRoom(t, img, b, n); }
    var nIndex := img.buckets[b][n];
    if nIndex !in m.mapInfo { m.mapInfo := m.mapInfo[nIndex := NO_ENTRY]; }
    if m.mapInfo[nIndex].nRefCount < NEW_BUCKETS_PER_ADDRESS {
      m.mapInfo := m.mapInfo[nIndex := m.mapInfo[nIndex].(nRefCount := m.mapInfo[nIndex].nRefCount + 1)];
      m.vvNew := m.vvNew[b := m.vvNew[b] + {nIndex}];
    }
    if Sound(m.net, img) { FillOne(t, img, b, n, m.T()); }
  }

  lemma FilledNext(t: Tables, img: Image, b: nat)
    requires b < |img.buckets| && Filled(t, img, b, |img.buckets[b]|)
    ensures Filled(t, img, b + 1, 0)
  {
    assert img.buckets[b][..|img.buckets[b]|] == img.buckets[b];
  }

  lemma FilledStart(t: Tables, img: Image)
    requires Sound(t.net, img) && TriedsRead(t, img, |img.trieds|) && |t.vvNew| == NEW_BUCKET_COUNT
    requires forall b :: 0 <= b < |t.vvNew| ==> t.vvNew[b] == {}
    ensures Filled(t, img, 0, 0) && IndexesLoaded(t, img) && Housed(t, img, |All(img)|) && t.nIdCount == |All(img)|
  {
    forall id ensures Holders(t.vvNew, id) == {} {}
  }

  /** What is read is represented by the stream it was read from. */
  lemma ReadRepresents(t: Tables, img: Image)
    requires Sound(t.net, img) && t.nKey == img.nKey && t.nNew == img.nNew && t.nTried == img.nTried
    requires Filled(t, img, |img.buckets|, 0)
    ensures Represents(img, t, Places(0, |img.news|), Places(|img.news|, |All(img)|))
  {
    var newIds, triedIds := Places(0, |img.news|), Places(|img.news|, |All(img)|);
    forall x: int ensures x in newIds <==> x in NewIds(t.mapInfo) {
      if 0 <= x < |img.news| { assert newIds[x] == x; }
    }
    forall x: int ensures x in triedIds <==> x in TriedIds(t.mapInfo) {
      if |img.news| <= x < |All(img)| { assert triedIds[x - |img.news|] == x; }
    }
    forall b | 0 <= b < |t.vvNew| ensures SameBucket(img.buckets[b], t.vvNew[b], newIds) {}
  }

  // ----- the round trip

  /** Two managers that agree on everything that is written: the same addresses with the same persisted
      fields, in the same table, in the same new buckets and in the same tried bucket. */
  ghost predicate SameView(t: Tables, u: Tables) {
    && t.nKey == u.nKey && t.nNew == u.nNew && t.nTried == u.nTried
    && (forall ip :: ip in t.mapAddr <==> ip in u.mapAddr)
    && (forall ip :: ip in t.mapAddr ==> SameEntry(t, u, ip))
  }

  ghost predicate SameEntry(t: Tables, u: Tables, ip: NetAddr) {
    && ip in t.mapAddr && t.mapAddr[ip] in t.mapInfo && ip in u.mapAddr && u.mapAddr[ip] in u.mapInfo
    && Persist(t.mapInfo[t.mapAddr[ip]]) == Persist(u.mapInfo[u.mapAddr[ip]])
    && t.mapInfo[t.mapAddr[ip]].fInTried == u.mapInfo[u.mapAddr[ip]].fInTried
    && |t.vvNew| == |u.vvNew| && |t.vvTried| == |u.vvTried|
    && (forall b :: 0 <= b < |t.vvNew| ==> (t.mapAddr[ip] in t.vvNew[b] <==> u.mapAddr[ip] in u.vvNew[b]))
    && (forall k :: 0 <= k < |t.vvTried| ==> (t.mapAddr[ip] in t.vvTried[k] <==> u.mapAddr[ip] in u.vvTried[k]))
  }

  /** Two consistent managers that one stream represents agree. */
  lemma SameStream(img: Image, t: Tables, ids: seq<int>, trieds: seq<int>, u: Tables, ids': seq<int>, trieds': seq<int>)
    requires t.Valid({}) && u.Valid({}) && t.net == u.net
    requires Represents(img, t, ids, trieds) && Represents(img, u, ids', trieds')
    ensures SameView(t, u)
  {
    forall ip | ip in t.mapAddr ensures SameEntry(t, u, ip) {
      Partner(img, t, ids, trieds, u, ids', trieds', ip);
    }
    forall ip | ip in u.mapAddr ensures ip in t.mapAddr {
      Partner(img, u, ids', trieds', t, ids, trieds, ip);
    }
  }

  lemma Partner(img: Image, t: Tables, ids: seq<int>, trieds: seq<int>, u: Tables, ids': seq<int>, trieds': seq<int>,
                ip: NetAddr)
    requires t.Valid({}) && u.Valid({}) && t.net == u.net && ip in t.mapAddr
    requires Represents(img, t, ids, trieds) && Represents(img, u, ids', trieds')
    ensures SameEntry(t, u, ip)
  {
    var id := t.mapAddr[ip];
    assert id in t.mapInfo && t.mapInfo[id].service.ip == ip;
    if t.mapInfo[id].fInTried {
      assert id in TriedIds(t.mapInfo);
      var i :| 0 <= i < |trieds| && trieds[i] == id;
      TriedPartner(img, t, u, ids', trieds', id, i);
    } else {
      assert id in NewIds(t.mapInfo);
      var i :| 0 <= i < |ids| && ids[i] == id;
      NewPartner(img, t, ids, trieds, u, ids', trieds', i);
    }
  }

  lemma TriedPartner(img: Image, t: Tables, u: Tables, ids': seq<int>, trieds': seq<int>, id: int, i: nat)
    requires t.Valid({}) && u.Valid({}) && t.net == u.net && t.nKey == img.nKey
    requires id in t.mapInfo && t.mapInfo[id].fInTried && i < |img.trieds| && img.trieds[i] == Persist(t.mapInfo[id])
    requires Represents(img, u, ids', trieds')
    ensures SameEntry(t, u, t.mapInfo[id].service.ip)
  {
    var ip, id' := t.mapInfo[id].service.ip, trieds'[i];
    assert id' in trieds' && id' in TriedIds(u.mapInfo);
    AddrAt(t, id);
    AddrAt(u, id');
    TriedPlaces(t, id);
    TriedPlaces(u, id');
    hide Tables.RandomOk, Tables.AddrOk, Tables.NewOk, Tables.TriedOk, Tables.CountsOk, Tables.SizesOk, Represents;
  }

  lemma NewPartner(img: Image, t: Tables, ids: seq<int>, trieds: seq<int>, u: Tables, ids': seq<int>, trieds': seq<int>,
                   i: nat)
    requires t.Valid({}) && u.Valid({}) && t.net == u.net
    requires Represents(img, t, ids, trieds) && Represents(img, u, ids', trieds')
    requires i < |ids| && ids[i] in t.mapInfo
    ensures SameEntry(t, u, t.mapInfo[ids[i]].service.ip)
  {
    var id, id' := ids[i], ids'[i];
    assert id in ids && id' in ids' && id in NewIds(t.mapInfo) && id' in NewIds(u.mapInfo);
    assert Persist(t.mapInfo[id]) == img.news[i] == Persist(u.mapInfo[id']);
    forall b | 0 <= b < |t.vvNew| ensures id in t.vvNew[b] <==> id' in u.vvNew[b] {
      assert SameBucket(img.buckets[b], t.vvNew[b], ids) && SameBucket(img.buckets[b], u.vvNew[b], ids');
    }
    AddrAt(t, id);
    AddrAt(u, id');
    NewPlaces(t, id);
    NewPlaces(u, id');
    hide Tables.RandomOk, Tables.AddrOk, Tables.NewOk, Tables.TriedOk, Tables.CountsOk, Tables.SizesOk, SameBucket;
  }

  lemma AddrAt(t: Tables, id: int)
    requires t.AddrOk() && id in t.mapInfo
    ensures t.mapInfo[id].service.ip in t.mapAddr && t.mapAddr[t.mapInfo[id].service.ip] == id
  {
  }

  lemma TriedPlaces(t: Tables, id: int)
    requires t.TriedOk() && t.NewOk({}) && id in t.mapInfo && t.mapInfo[id].fInTried
    ensures |t.vvNew| == NEW_BUCKET_COUNT && |t.vvTried| == TRIED_BUCKET_COUNT
    ensures forall b :: 0 <= b < |t.vvNew| ==> id !in t.vvNew[b]
    ensures forall k :: 0 <= k < |t.vvTried| ==>
      (id in t.vvTried[k] <==> t.net.TriedBucket(t.nKey, t.mapInfo[id].service) == k)
  {
  }

  lemma NewPlaces(t: Tables, id: int)
    requires t.TriedOk() && id in t.mapInfo && !t.mapInfo[id].fInTried
    ensures |t.vvTried| == TRIED_BUCKET_COUNT
    ensures forall k :: 0 <= k < |t.vvTried| ==> id !in t.vvTried[k]
  {
  }

  /** Times that pass the check still do after a reload. */
  lemma TimesSurvive(t: Tables, u: Tables)
    requires t.AddrOk() && u.AddrOk() && SameView(t, u) && t.TimesOk() && Untried(u)
    ensures u.TimesOk()
  {
    forall id | id in u.mapInfo
      ensures u.mapInfo[id].nLastTry >= 0 && u.mapInfo[id].nLastSuccess >= 0
      ensures u.mapInfo[id].fInTried ==> u.mapInfo[id].nLastSuccess != 0
    {
      AddrAt(u, id);
      var ip := u.mapInfo[id].service.ip;
      assert ip in t.mapAddr && SameEntry(t, u, ip);
      var j := t.mapAddr[ip];
      assert Persist(t.mapInfo[j]).nLastSuccess == Persist(u.mapInfo[id]).nLastSuccess;
      assert t.mapInfo[j].fInTried == u.mapInfo[id].fInTried;
    }
  }

  /** Writing a consistent manager and reading the stream into any other one with the same hash loses
      nothing and gives a consistent manager with the same contents, whatever ids it chose. */
  method RoundTrip(m: AddrMan, other: AddrMan) returns (ok: bool, nLost: nat)
    requires m.Valid() && m != other && m.net == other.net
    modifies other
    ensures ok && nLost == 0 && other.Valid() && SameView(m.T(), other.T())
    ensures m.T() == old(m.T()) && Untried(other.T())
    ensures m.T().TimesOk() ==> other.T().TimesOk() && Checked(other.T())
  {
    var img := Write(m);
    ghost var newIds, triedIds :| Represents(img, m.T(), newIds, triedIds);
    RepresentsSound(img, m.T(), newIds, triedIds);
    assert img.nUBuckets == NEW_BUCKET_COUNT;
    hide Sound, Represents, Tables.Valid, SameView;
    ok, nLost := Read(other, img);
    SameStream(img, m.T(), newIds, triedIds, other.T(), Places(0, |img.news|), Places(|img.news|, |All(img)|));
    if m.T().TimesOk() { ReloadChecked(m.T(), other.T()); }
  }

  lemma ReloadChecked(t: Tables, u: Tables)
    requires t.Valid({}) && u.Valid({}) && SameView(t, u) && t.TimesOk() && Untried(u)
    ensures u.TimesOk() && Checked(u)
  {
    hide Checked, SameView, Untried, Tables.TimesOk;
    TimesSurvive(t, u);
    ValidChecked(u);
  }

  // ----- runs with restarts

  datatype Event = Do(op: Op) | Restart

  predicate SensibleEvent(event: Event) {
    event.Do? ==> SensibleTime(event.op)
  }

  predicate AllSensibleEvents(events: seq<Event>) {
    forall i :: 0 <= i < |events| ==> SensibleEvent(events[i])
  }

  /** What an event may do to consistent tables: a restart keeps all that is stored and forgets the last tries. */
  ghost predicate Followed(t: Tables, event: Event, u: Tables)
    requires t.Valid({})
  {
    match event
    case Do(op) => Stepped(t, op, u)
    case Restart => u.net == t.net && SameView(t, u) && Untried(u)
  }

  /** The tables before each event of a run and after the last: empty at first, always consistent. */
  ghost predicate Chronicle(net: Net, nKey: seq<bv8>, events: seq<Event>, states: seq<Tables>) {
    && |states| == |events| + 1 && states[0] == NoPeers(net, nKey)
    && (forall i :: 0 <= i <= |events| ==> states[i].Valid({}))
    && (forall i :: 0 <= i < |events| ==> Followed(states[i], events[i], states[i + 1]))
  }

  lemma Shape(t: Tables)
    requires t.Valid({})
    ensures |t.vvNew| == 256 && |t.vvTried| == 64
  {
  }

  lemma SamePersisted(x: AddrInfo, y: AddrInfo)
    requires Persist(x) == Persist(y) && x.fInTried == y.fInTried
    ensures y == x.(nLastTry := y.nLastTry, nRefCount := y.nRefCount, nRandomPos := y.nRandomPos)
  {
    assert Persist(x).service == Persist(y).service && Persist(x).nServices == Persist(y).nServices;
    assert Persist(x).nTime == Persist(y).nTime && Persist(x).source == Persist(y).source;
    assert Persist(x).nLastSuccess == Persist(y).nLastSuccess && Persist(x).nAttempts == Persist(y).nAttempts;
  }

  /** A restart in a run keeps every address, with all that is stored about it and its buckets, and forgets only when it
      was tried last. */
  lemma RestartKeeps(net: Net, nKey: seq<bv8>, events: seq<Event>, states: seq<Tables>, n: nat, ip: NetAddr, b: nat,
                     k: nat)
    requires Chronicle(net, nKey, events, states) && n < |events| && events[n].Restart? && b < 256 && k < 64
    ensures var t, u := states[n], states[n + 1];
      && t.nKey == u.nKey && t.nNew == u.nNew && t.nTried == u.nTried && (ip in t.mapAddr <==> ip in u.mapAddr)
      && (forall id :: id in t.mapInfo && t.mapInfo[id].service.ip == ip ==> id == t.mapAddr[ip])
    ensures var t, u := states[n], states[n + 1];
      ip in t.mapAddr ==>
        && t.mapAddr[ip] in t.mapInfo && u.mapAddr[ip] in u.mapInfo
        && var x, y := t.mapInfo[t.mapAddr[ip]], u.mapInfo[u.mapAddr[ip]];
        && y == x.(nLastTry := 0, nRefCount := y.nRefCount, nRandomPos := y.nRandomPos)
        && |t.vvNew| == |u.vvNew| == 256 && |t.vvTried| == |u.vvTried| == 64
        && (t.mapAddr[ip] in t.vvNew[b] <==> u.mapAddr[ip] in u.vvNew[b])
        && (t.mapAddr[ip] in t.vvTried[k] <==> u.mapAddr[ip] in u.vvTried[k])
  {
    hide Tables.RandomOk, Tables.CountsOk, Tables.NewOk, Tables.TriedOk, Tables.SizesOk;
    var t, u := states[n], states[n + 1];
    assert t.Valid({}) && u.Valid({}) && Followed(t, events[n], u);
    Shape(t);
    if ip in t.mapAddr {
      assert SameEntry(t, u, ip);
      var i, j := t.mapAddr[ip], u.mapAddr[ip];
      assert i in t.mapInfo && j in u.mapInfo && u.mapInfo[j].nLastTry == 0;
      SamePersisted(t.mapInfo[i], u.mapInfo[j]);
    }
  }

  lemma ChronicleNext(net: Net, nKey: seq<bv8>, events: seq<Event>, states: seq<Tables>, event: Event, u: Tables)
    requires Chronicle(net, nKey, events, states) && Followed(states[|events|], event, u) && u.Valid({})
    ensures Chronicle(net, nKey, events + [event], states + [u])
  {
    hide Tables.Valid, Followed, NoPeers;
  }

  lemma ChronicleStarts(net: Net, nKey: seq<bv8>)
    requires NoPeers(net, nKey).Valid({})
    ensures Chronicle(net, nKey, [], [NoPeers(net, nKey)])
  {
  }

  lemma SensibleEventStep(events: seq<Event>, i: nat)
    requires i < |events|
    ensures AllSensibleEvents(events[..i + 1]) ==> AllSensibleEvents(events[..i]) && SensibleEvent(events[i])
  {
    if AllSensibleEvents(events[..i + 1]) {
      forall k | 0 <= k < i ensures SensibleEvent(events[..i][k]) { assert events[..i + 1][k] == events[k]; }
      assert events[..i + 1][i] == events[i];
    }
  }

  /** Every run from the empty manager, saved and loaded again any number of times on the way. The ghost result is its
      history; after every event up to which the times are sensible the tables pass the consistency check. */
  method RunWithRestarts(net: Net, nKey: seq<bv8>, events: seq<Event>) returns (m: AddrMan, ghost states: seq<Tables>)
    ensures fresh(m) && Chronicle(net, nKey, events, states) && m.T() == states[|events|]
    ensures forall i :: 0 <= i <= |events| && AllSensibleEvents(events[..i]) ==>
      states[i].TimesOk() && Checked(states[i])
  {
    hide Tables.Valid, Tables.TimesOk, SameView, Checked, Chronicle, Stepped, Untried, AllSensibleEvents;
    m := new AddrMan(net, nKey);
    states := [m.T()];
    ChronicleStarts(net, nKey);
    ValidChecked(m.T());
    for i := 0 to |events|
      invariant fresh(m) && m.Valid() && m.net == net && |states| == i + 1 && m.T() == states[i]
      invariant Chronicle(net, nKey, events[..i], states)
      invariant forall k :: 0 <= k <= i && AllSensibleEvents(events[..k]) ==> states[k].TimesOk() && Checked(states[k])
    {
      match events[i] {
        case Do(op) =>
          Perform(m, op);
        case Restart =>
          var other := new AddrMan(net, nKey);
          var ok, nLost := RoundTrip(m, other);
          m := other;
      }
      ChronicleNext(net, nKey, events[..i], states, events[i], m.T());
      assert events[..i + 1] == events[..i] + [events[i]];
      SensibleEventStep(events, i);
      states := states + [m.T()];
      if m.T().TimesOk() { ValidChecked(m.T()); }
    }
    assert events[..|events|] == events;
  }
}
