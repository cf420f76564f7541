/** The tables behind the address manager of src/addrman.h, as one value, with the consistency
    predicate that every operation has to keep and the lemmas about single table updates. */
module AddrTables {

  const TRIED_BUCKET_COUNT := 64
  const TRIED_BUCKET_SIZE := 64
  const NEW_BUCKET_COUNT := 256
  const NEW_BUCKET_SIZE := 64
  const TRIED_BUCKETS_PER_GROUP := 4
  const NEW_BUCKETS_PER_SOURCE_GROUP := 32
  const NEW_BUCKETS_PER_ADDRESS := 4
  const TRIED_ENTRIES_INSPECT_ON_EVICT := 4
  const HORIZON_DAYS := 30
  const RETRIES := 3
  const MAX_FAILURES := 10
  const MIN_FAIL_DAYS := 7
  const GETADDR_MAX_PCT := 23
  const GETADDR_MAX := 2500

  /** A 16-byte network address and a network address with a port. */
  type NetAddr = ip: nat | ip < 0x1_0000_0000_0000_0000_0000_0000_0000_0000
  datatype Service = Service(ip: NetAddr, port: nat)

  type Time32 = x: nat | x < 0x1_0000_0000

  /** The conversion from a 64-bit time to the 32-bit unsigned field. */
  function ToTime32(x: int): Time32 {
    x % 0x1_0000_0000
  }

  /** Service flags are the set of bits that are on. */
  datatype Address = Address(service: Service, nServices: set<nat>, nTime: Time32)

  datatype AddrInfo = AddrInfo(
    service: Service, nServices: set<nat>, nTime: Time32, source: NetAddr,
    nLastTry: int, nLastSuccess: int, nAttempts: int,
    nRefCount: int, fInTried: bool, nRandomPos: int)

  /** Whether the statistics are bad enough for the entry to be deleted. */
  predicate IsTerrible(info: AddrInfo, nNow: int) {
    if info.nLastTry != 0 && info.nLastTry >= nNow - 60 then false
    else if info.nTime > nNow + 10 * 60 then true
    else if info.nTime == 0 || nNow - info.nTime > HORIZON_DAYS * 86400 then true
    else if info.nLastSuccess == 0 && info.nAttempts >= RETRIES then true
    else nNow - info.nLastSuccess > MIN_FAIL_DAYS * 86400 && info.nAttempts >= MAX_FAILURES
  }

  /** What is hashed, field by field. */
  datatype Field = Bytes(b: seq<bv8>) | Num(n: nat)

  /** Code outside the address manager: the 64-bit hash of a stream of fields, the address group, the
      byte key of a service, the test for routable addresses, and the source of random numbers, one for each draw. */
  datatype Net = Net(
    hash: seq<Field> -> nat, groupOf: NetAddr -> seq<bv8>,
    keyOf: Service -> seq<bv8>, isRoutable: NetAddr -> bool, rand: nat -> nat)
  {
    /** Draw d of GetRandInt: a value below n, and 0 for n == 0. */
    function Rand(d: nat, n: nat): (r: nat)
      ensures if n == 0 then r == 0 else r < n
    {
      if n == 0 then 0 else rand(d) % n
    }

    function TriedBucket(nKey: seq<bv8>, s: Service): (k: nat)
      ensures k < TRIED_BUCKET_COUNT
    {
      var hash1 := hash([Bytes(nKey), Bytes(keyOf(s))]);
      var hash2 := hash([Bytes(nKey), Bytes(groupOf(s.ip)), Num(hash1 % TRIED_BUCKETS_PER_GROUP)]);
      hash2 % TRIED_BUCKET_COUNT
    }

    function NewBucket(nKey: seq<bv8>, ip: NetAddr, src: NetAddr): (b: nat)
      ensures b < NEW_BUCKET_COUNT
    {
      var hash1 := hash([Bytes(nKey), Bytes(groupOf(ip)), Bytes(groupOf(src))]);
      var hash2 := hash([Bytes(nKey), Bytes(groupOf(src)), Num(hash1 % NEW_BUCKETS_PER_SOURCE_GROUP)]);
      hash2 % NEW_BUCKET_COUNT
    }
  }

  /** The new buckets that hold an id. */
  function Holders(vvNew: seq<set<int>>, id: int): set<int> {
    set b | 0 <= b < |vvNew| && id in vvNew[b]
  }

  ghost predicate NoRepeats<T>(s: seq<T>) {
    forall i, j :: 0 <= i < j < |s| ==> s[i] != s[j]
  }

  function TriedIds(m: map<int, AddrInfo>): set<int> {
    set id | id in m && m[id].fInTried
  }

  function NewIds(m: map<int, AddrInfo>): set<int> {
    set id | id in m && !m[id].fInTried
  }

  datatype Tables = Tables(
    net: Net, nKey: seq<bv8>, nIdCount: int,
    mapInfo: map<int, AddrInfo>, mapAddr: map<NetAddr, int>, vRandom: seq<int>,
    nTried: int, vvTried: seq<seq<int>>, nNew: int, vvNew: seq<set<int>>)
  {
    /** vRandom is a permutation of the ids, with exact back pointers. */
    ghost predicate RandomOk() {
      && (forall id :: id in mapInfo ==>
            0 <= mapInfo[id].nRandomPos < |vRandom| && vRandom[mapInfo[id].nRandomPos] == id)
      && (forall i :: 0 <= i < |vRandom| ==> vRandom[i] in mapInfo && mapInfo[vRandom[i]].nRandomPos == i)
    }

    /** mapAddr is the inverse of mapInfo, and every id has been handed out. */
    ghost predicate AddrOk() {
      && 0 <= nIdCount
      && (forall id :: id in mapInfo ==>
            && 0 <= id < nIdCount
            && mapInfo[id].service.ip in mapAddr && mapAddr[mapInfo[id].service.ip] == id)
      && (forall a :: a in mapAddr ==> mapAddr[a] in mapInfo && mapInfo[mapAddr[a]].service.ip == a)
    }

    /** A new entry sits in exactly nRefCount new buckets, one fewer while it is in "pending": its count
        has then been raised for a bucket it is about to enter. */
    ghost predicate NewOk(pending: set<int>) {
      && |vvNew| == NEW_BUCKET_COUNT
      && (forall b, id :: 0 <= b < |vvNew| && id in vvNew[b] ==> id in mapInfo && !mapInfo[id].fInTried)
      && (forall id :: id in mapInfo && !mapInfo[id].fInTried ==>
            && 1 <= mapInfo[id].nRefCount <= NEW_BUCKETS_PER_ADDRESS
            && mapInfo[id].nRefCount == |Holders(vvNew, id)| + if id in pending then 1 else 0)
    }

    /** A tried entry sits once, in its own tried bucket. */
    ghost predicate TriedOk() {
      && |vvTried| == TRIED_BUCKET_COUNT
      && (forall k :: 0 <= k < |vvTried| ==> NoRepeats(vvTried[k]))
      && (forall k, id :: 0 <= k < |vvTried| && id in vvTried[k] ==>
            id in mapInfo && mapInfo[id].fInTried && net.TriedBucket(nKey, mapInfo[id].service) == k)
      && (forall id :: id in mapInfo && mapInfo[id].fInTried ==>
            mapInfo[id].nRefCount == 0 && id in vvTried[net.TriedBucket(nKey, mapInfo[id].service)])
    }

    /** No bucket is over its size. */
    ghost predicate SizesOk() {
      && (forall b :: 0 <= b < |vvNew| ==> |vvNew[b]| <= NEW_BUCKET_SIZE)
      && (forall k :: 0 <= k < |vvTried| ==> |vvTried[k]| <= TRIED_BUCKET_SIZE)
    }

    ghost predicate CountsOk() {
      nNew == |NewIds(mapInfo)| && nTried == |TriedIds(mapInfo)|
    }

    ghost predicate Valid(pending: set<int>) {
      RandomOk() && AddrOk() && NewOk(pending) && TriedOk() && CountsOk() && SizesOk()
    }

    /** The part of the consistency check that depends on the times callers pass in. */
    ghost predicate TimesOk() {
      forall id :: id in mapInfo ==>
        && mapInfo[id].nLastTry >= 0 && mapInfo[id].nLastSuccess >= 0
        && (mapInfo[id].fInTried ==> mapInfo[id].nLastSuccess != 0)
    }

    function Swap(i: int, j: int): Tables
      requires 0 <= i < |vRandom| && 0 <= j < |vRandom|
      requires vRandom[i] in mapInfo && vRandom[j] in mapInfo
    {
      if i == j then this else
      var a, b := vRandom[i], vRandom[j];
      var m := mapInfo[a := mapInfo[a].(nRandomPos := j)];
      this.(mapInfo := m[b := m[b].(nRandomPos := i)], vRandom := vRandom[i := b][j := a])
    }

    /** Delete an entry: move it to the end of vRandom, pop it, and erase it from both maps. */
    function Forget(id: int): Tables
      requires RandomOk() && id in mapInfo
    {
      var t := Swap(mapInfo[id].nRandomPos, |vRandom| - 1);
      t.(vRandom := t.vRandom[..|vRandom| - 1], mapAddr := mapAddr - {mapInfo[id].service.ip},
         mapInfo := t.mapInfo - {id}, nNew := nNew - 1)
    }

    /** Take an id out of a new bucket, deleting the entry with its last reference. */
    function DropRef(b: int, id: int): Tables
      requires RandomOk() && 0 <= b < |vvNew| && id in mapInfo
    {
      var info := mapInfo[id].(nRefCount := mapInfo[id].nRefCount - 1);
      var t := this.(mapInfo := mapInfo[id := info]);
      var u := if info.nRefCount == 0 then t.Forget(id) else t;
      u.(vvNew := vvNew[b := vvNew[b] - {id}])
    }
  }

  // ----- cardinalities

  lemma MapUpdateIds(m: map<int, AddrInfo>, id: int, info: AddrInfo)
    ensures info.fInTried ==> TriedIds(m[id := info]) == TriedIds(m) + {id} && NewIds(m[id := info]) == NewIds(m) - {id}
    ensures !info.fInTried ==>
      TriedIds(m[id := info]) == TriedIds(m) - {id} && NewIds(m[id := info]) == NewIds(m) + {id}
  {
  }

  lemma SameStatusIds(m: map<int, AddrInfo>, n: map<int, AddrInfo>)
    requires forall id :: id in m <==> id in n
    requires forall id :: id in m ==> m[id].fInTried == n[id].fInTried
    ensures NewIds(m) == NewIds(n) && TriedIds(m) == TriedIds(n)
  {
    forall id: int ensures id in NewIds(m) <==> id in NewIds(n) {}
    forall id: int ensures id in TriedIds(m) <==> id in TriedIds(n) {}
  }

  lemma HoldersRemove(vvNew: seq<set<int>>, b: int, id: int)
    requires 0 <= b < |vvNew|
    ensures Holders(vvNew[b := vvNew[b] - {id}], id) == Holders(vvNew, id) - {b}
    ensures forall x :: x != id ==> Holders(vvNew[b := vvNew[b] - {id}], x) == Holders(vvNew, x)
  {
    var w := vvNew[b := vvNew[b] - {id}];
    forall x | x != id ensures Holders(w, x) == Holders(vvNew, x) {
      assert forall c :: 0 <= c < |vvNew| ==> (x in w[c] <==> x in vvNew[c]);
    }
  }

  lemma HoldersCount(vvNew: seq<set<int>>, b: int, id: int)
    requires 0 <= b < |vvNew|
    ensures |Holders(vvNew[b := vvNew[b] - {id}], id)| == |Holders(vvNew, id)| - if id in vvNew[b] then 1 else 0
  {
    HoldersRemove(vvNew, b, id);
    assert id in vvNew[b] <==> b in Holders(vvNew, id);
  }

  lemma HoldersInsert(vvNew: seq<set<int>>, b: int, id: int)
    requires 0 <= b < |vvNew|
    ensures Holders(vvNew[b := vvNew[b] + {id}], id) == Holders(vvNew, id) + {b}
    ensures forall x :: x != id ==> Holders(vvNew[b := vvNew[b] + {id}], x) == Holders(vvNew, x)
  {
    var w := vvNew[b := vvNew[b] + {id}];
    forall x | x != id ensures Holders(w, x) == Holders(vvNew, x) {
      assert forall c :: 0 <= c < |vvNew| ==> (x in w[c] <==> x in vvNew[c]);
    }
  }

  // ----- single updates keep the tables consistent

  /** The same entries with the same facts; only positions in vRandom may differ. */
  ghost predicate Repositioned(t: Tables, u: Tables) {
    && u == t.(mapInfo := u.mapInfo, vRandom := u.vRandom)
    && u.mapInfo.Keys == t.mapInfo.Keys
    && forall id :: id in t.mapInfo ==> u.mapInfo[id] == t.mapInfo[id].(nRandomPos := u.mapInfo[id].nRandomPos)
  }

  /** The same ids with the same addresses at the same positions. */
  ghost predicate SameIndex(t: Tables, u: Tables) {
    && u.vRandom == t.vRandom && u.mapAddr == t.mapAddr && u.nIdCount == t.nIdCount
    && (forall id :: id in u.mapInfo <==> id in t.mapInfo)
    && (forall id :: id in t.mapInfo ==>
          u.mapInfo[id].nRandomPos == t.mapInfo[id].nRandomPos && u.mapInfo[id].service == t.mapInfo[id].service)
  }

  lemma SameIndexKeeps(t: Tables, u: Tables)
    requires SameIndex(t, u)
    ensures t.RandomOk() ==> u.RandomOk()
    ensures t.AddrOk() ==> u.AddrOk()
  {
    SameIndexRandom(t, u);
    SameIndexAddr(t, u);
    hide Tables.RandomOk, Tables.AddrOk;
  }

  lemma SameIndexRandom(t: Tables, u: Tables)
    requires SameIndex(t, u)
    ensures t.RandomOk() ==> u.RandomOk()
  {
    if t.RandomOk() {
      forall id | id in u.mapInfo
        ensures 0 <= u.mapInfo[id].nRandomPos < |u.vRandom| && u.vRandom[u.mapInfo[id].nRandomPos] == id
      {
        assert id in t.mapInfo;
      }
      forall i | 0 <= i < |u.vRandom| ensures u.vRandom[i] in u.mapInfo && u.mapInfo[u.vRandom[i]].nRandomPos == i {
        var id := t.vRandom[i];
        assert id in t.mapInfo;
      }
    }
  }

  lemma SameIndexAddr(t: Tables, u: Tables)
    requires SameIndex(t, u)
    ensures t.AddrOk() ==> u.AddrOk()
  {
    if t.AddrOk() {
      forall id | id in u.mapInfo
        ensures 0 <= id < u.nIdCount && u.mapInfo[id].service.ip in u.mapAddr
        ensures u.mapAddr[u.mapInfo[id].service.ip] == id
      {
        assert id in t.mapInfo;
      }
      forall a | a in u.mapAddr ensures u.mapAddr[a] in u.mapInfo && u.mapInfo[u.mapAddr[a]].service.ip == a {
        var id := t.mapAddr[a];
        assert id in t.mapInfo;
      }
    }
  }

  /** The same tried table over the same entries. */
  ghost predicate SameTried(t: Tables, u: Tables) {
    && u.vvTried == t.vvTried && u.net == t.net && u.nKey == t.nKey && u.nTried == t.nTried && u.nNew == t.nNew
    && (forall id :: id in u.mapInfo <==> id in t.mapInfo)
    && (forall id :: id in t.mapInfo ==> u.mapInfo[id].fInTried == t.mapInfo[id].fInTried)
    && (forall id :: id in t.mapInfo && t.mapInfo[id].fInTried ==>
          u.mapInfo[id].service == t.mapInfo[id].service && u.mapInfo[id].nRefCount == t.mapInfo[id].nRefCount)
  }

  lemma SameTriedKeeps(t: Tables, u: Tables)
    requires SameTried(t, u)
    ensures t.TriedOk() ==> u.TriedOk()
    ensures t.CountsOk() ==> u.CountsOk()
  {
    SameTriedOk(t, u);
    SameStatusIds(t.mapInfo, u.mapInfo);
    hide Tables.TriedOk;
  }

  lemma SameTriedOk(t: Tables, u: Tables)
    requires SameTried(t, u)
    ensures t.TriedOk() ==> u.TriedOk()
  {
    if t.TriedOk() {
      forall k, id | 0 <= k < |u.vvTried| && id in u.vvTried[k]
        ensures id in u.mapInfo && u.mapInfo[id].fInTried && u.net.TriedBucket(u.nKey, u.mapInfo[id].service) == k
      {
        assert id in t.mapInfo;
      }
    }
  }

  lemma RepositionedKeeps(t: Tables, u: Tables, pending: set<int>)
    requires Repositioned(t, u)
    ensures t.AddrOk() ==> u.AddrOk()
    ensures t.NewOk(pending) ==> u.NewOk(pending)
    ensures t.TriedOk() ==> u.TriedOk()
    ensures t.CountsOk() ==> u.CountsOk()
    ensures t.SizesOk() ==> u.SizesOk()
    ensures t.TimesOk() ==> u.TimesOk()
  {
    assert forall id :: id in u.mapInfo <==> id in t.mapInfo;
    SameTriedKeeps(t, u);
    RepositionedNewOk(t, u, pending);
    RepositionedAddrOk(t, u);
    hide Tables.AddrOk, Tables.NewOk, Tables.TriedOk, Tables.CountsOk;
  }

  lemma RepositionedNewOk(t: Tables, u: Tables, pending: set<int>)
    requires Repositioned(t, u)
    ensures t.NewOk(pending) ==> u.NewOk(pending)
  {
  }

  lemma RepositionedAddrOk(t: Tables, u: Tables)
    requires Repositioned(t, u)
    ensures t.AddrOk() ==> u.AddrOk()
  {
  }

  lemma SwapRandomOk(t: Tables, i: int, j: int)
    requires t.RandomOk() && 0 <= i < |t.vRandom| && 0 <= j < |t.vRandom|
    ensures t.Swap(i, j).RandomOk()
  {
    if i != j {
      var u := t.Swap(i, j);
      var a, b := t.vRandom[i], t.vRandom[j];
      assert a != b && u.mapInfo[a].nRandomPos == j && u.mapInfo[b].nRandomPos == i;
      forall k | 0 <= k < |u.vRandom| ensures u.vRandom[k] in u.mapInfo && u.mapInfo[u.vRandom[k]].nRandomPos == k {
        assert t.vRandom[k] in t.mapInfo && t.mapInfo[t.vRandom[k]].nRandomPos == k;
      }
      forall id | id in u.mapInfo
        ensures 0 <= u.mapInfo[id].nRandomPos < |u.vRandom| && u.vRandom[u.mapInfo[id].nRandomPos] == id
      {
        assert id != a && id != b ==> u.mapInfo[id] == t.mapInfo[id];
      }
    }
  }

  lemma SwapRepositions(t: Tables, i: int, j: int)
    requires t.RandomOk() && 0 <= i < |t.vRandom| && 0 <= j < |t.vRandom|
    ensures Repositioned(t, t.Swap(i, j))
  {
    var u := t.Swap(i, j);
    var a, b := t.vRandom[i], t.vRandom[j];
    assert a in t.mapInfo && b in t.mapInfo;
    hide Tables.RandomOk;
    assert u.mapInfo.Keys == t.mapInfo.Keys;
    forall id | id in t.mapInfo ensures u.mapInfo[id] == t.mapInfo[id].(nRandomPos := u.mapInfo[id].nRandomPos) {}
  }

  lemma SwapValid(t: Tables, i: int, j: int, pending: set<int>)
    requires t.Valid(pending) && 0 <= i < |t.vRandom| && 0 <= j < |t.vRandom|
    ensures t.Swap(i, j).Valid(pending)
    ensures t.TimesOk() ==> t.Swap(i, j).TimesOk()
  {
    hide Tables.RandomOk, Tables.AddrOk, Tables.NewOk, Tables.TriedOk, Tables.CountsOk, Tables.SizesOk, Tables.TimesOk;
    SwapRandomOk(t, i, j);
    SwapRepositions(t, i, j);
    RepositionedKeeps(t, t.Swap(i, j), pending);
  }

  /** t without the entry id, whatever becomes of vRandom. */
  function Without(t: Tables, id: int): Tables
    requires id in t.mapInfo
  {
    t.(mapInfo := t.mapInfo - {id}, mapAddr := t.mapAddr - {t.mapInfo[id].service.ip}, nNew := t.nNew - 1)
  }

  lemma WithoutKeeps(t: Tables, id: int, pending: set<int>)
    requires t.AddrOk() && t.TriedOk() && t.CountsOk() && id in t.mapInfo && !t.mapInfo[id].fInTried
    ensures Without(t, id).AddrOk() && Without(t, id).TriedOk() && Without(t, id).CountsOk()
    ensures t.TimesOk() ==> Without(t, id).TimesOk()
  {
    var u := Without(t, id);
    assert NewIds(u.mapInfo) == NewIds(t.mapInfo) - {id};
    assert TriedIds(u.mapInfo) == TriedIds(t.mapInfo);
    WithoutAddrOk(t, id);
    WithoutTriedOk(t, id);
    hide Tables.AddrOk, Tables.TriedOk;
  }

  lemma WithoutAddrOk(t: Tables, id: int)
    requires t.AddrOk() && id in t.mapInfo
    ensures Without(t, id).AddrOk()
  {
  }

  lemma WithoutTriedOk(t: Tables, id: int)
    requires t.TriedOk() && id in t.mapInfo && !t.mapInfo[id].fInTried
    ensures Without(t, id).TriedOk()
  {
  }

  function Pop(s: Tables, id: int): Tables
    requires |s.vRandom| > 0
  {
    s.(vRandom := s.vRandom[..|s.vRandom| - 1], mapInfo := s.mapInfo - {id})
  }

  lemma PopLast(s: Tables, id: int)
    requires s.RandomOk() && |s.vRandom| > 0 && s.vRandom[|s.vRandom| - 1] == id
    ensures Pop(s, id).RandomOk()
  {
  }

  lemma ForgetSplits(t: Tables, id: int)
    requires t.RandomOk() && id in t.mapInfo
    ensures t.Forget(id).RandomOk() && Repositioned(Without(t, id), t.Forget(id))
  {
    var pos, last := t.mapInfo[id].nRandomPos, |t.vRandom| - 1;
    assert 0 <= pos <= last && t.vRandom[pos] == id && t.vRandom[last] in t.mapInfo;
    var s := t.Swap(pos, last);
    SwapRandomOk(t, pos, last);
    SwapRepositions(t, pos, last);
    assert s.vRandom[last] == id;
    PopLast(s, id);
    var u, w := t.Forget(id), Without(t, id);
    assert u.vRandom == Pop(s, id).vRandom && u.mapInfo == Pop(s, id).mapInfo;
    SameRandomOk(Pop(s, id), u);
    hide Tables.RandomOk;
    assert u.mapInfo.Keys == w.mapInfo.Keys;
    assert Repositioned(w, u);
  }

  lemma SameRandomOk(t: Tables, u: Tables)
    requires t.RandomOk() && u.vRandom == t.vRandom && u.mapInfo == t.mapInfo
    ensures u.RandomOk()
  {
  }

  /** With its last reference goes the entry, and nothing else. */
  lemma ForgetValid(t: Tables, id: int, pending: set<int>)
    requires t.RandomOk() && t.AddrOk() && t.TriedOk() && t.CountsOk() && t.SizesOk()
    requires id in t.mapInfo && !t.mapInfo[id].fInTried
    requires Without(t, id).NewOk(pending)
    ensures t.Forget(id).Valid(pending)
    ensures t.TimesOk() ==> t.Forget(id).TimesOk()
  {
    hide Tables.RandomOk, Tables.AddrOk, Tables.NewOk, Tables.TriedOk, Tables.CountsOk, Tables.TimesOk, Tables.Forget;
    ForgetSplits(t, id);
    WithoutKeeps(t, id, pending);
    assert Without(t, id).SizesOk();
    RepositionedKeeps(Without(t, id), t.Forget(id), pending);
  }

  /** A change of one new entry's counters and times that leaves its address and its place alone. */
  lemma RecountKeeps(t: Tables, id: int, info: AddrInfo)
    requires id in t.mapInfo
    requires info.service == t.mapInfo[id].service && info.nRandomPos == t.mapInfo[id].nRandomPos
    requires info.fInTried == t.mapInfo[id].fInTried
    requires info.fInTried ==> info.nRefCount == t.mapInfo[id].nRefCount
    ensures t.RandomOk() ==> t.(mapInfo := t.mapInfo[id := info]).RandomOk()
    ensures t.AddrOk() ==> t.(mapInfo := t.mapInfo[id := info]).AddrOk()
    ensures t.TriedOk() ==> t.(mapInfo := t.mapInfo[id := info]).TriedOk()
    ensures t.CountsOk() ==> t.(mapInfo := t.mapInfo[id := info]).CountsOk()
  {
    var u := t.(mapInfo := t.mapInfo[id := info]);
    assert SameIndex(t, u) && SameTried(t, u);
    SameIndexKeeps(t, u);
    SameTriedKeeps(t, u);
    hide Tables.RandomOk, Tables.AddrOk, Tables.TriedOk, Tables.CountsOk;
  }

  /** The step of DropRef before a possible deletion. */
  function Unlink(t: Tables, b: int, id: int): Tables
    requires 0 <= b < |t.vvNew| && id in t.mapInfo
  {
    t.(mapInfo := t.mapInfo[id := t.mapInfo[id].(nRefCount := t.mapInfo[id].nRefCount - 1)],
       vvNew := t.vvNew[b := t.vvNew[b] - {id}])
  }

  lemma UnlinkHolders(t: Tables, b: int, id: int, pending: set<int>)
    requires t.NewOk(pending) && 0 <= b < |t.vvNew| && id in t.vvNew[b] && id !in pending
    ensures Unlink(t, b, id).mapInfo[id].nRefCount == |Holders(Unlink(t, b, id).vvNew, id)|
    ensures Unlink(t, b, id).mapInfo[id].nRefCount > 0 ==> Unlink(t, b, id).NewOk(pending)
    ensures Unlink(t, b, id).mapInfo[id].nRefCount == 0 ==> Without(Unlink(t, b, id), id).NewOk(pending)
  {
    HoldersRemove(t.vvNew, b, id);
    assert b in Holders(t.vvNew, id);
    var u := Unlink(t, b, id);
    forall c, x | 0 <= c < |u.vvNew| && x in u.vvNew[c]
      ensures x in t.vvNew[c] && c in Holders(u.vvNew, x) {}
  }

  lemma DropRefUnlinks(t: Tables, b: int, id: int)
    requires t.RandomOk() && 0 <= b < |t.vvNew| && id in t.mapInfo && Unlink(t, b, id).RandomOk()
    ensures t.DropRef(b, id) == if t.mapInfo[id].nRefCount == 1 then Unlink(t, b, id).Forget(id) else Unlink(t, b, id)
  {
    assert t.vRandom[t.mapInfo[id].nRandomPos] == id && t.vRandom[|t.vRandom| - 1] in t.mapInfo;
    hide Tables.RandomOk;
  }

  lemma DropRefValid(t: Tables, b: int, id: int, pending: set<int>)
    requires t.Valid(pending) && 0 <= b < |t.vvNew| && id in t.vvNew[b] && id !in pending
    ensures t.DropRef(b, id).Valid(pending)
    ensures t.TimesOk() ==> t.DropRef(b, id).TimesOk()
  {
    assert id in t.mapInfo && !t.mapInfo[id].fInTried;
    var u := Unlink(t, b, id);
    UnlinkHolders(t, b, id, pending);
    assert u.SizesOk() by {
      assert |u.vvNew[b]| == |t.vvNew[b]| - 1;
    }
    assert t.TimesOk() ==> u.TimesOk();
    hide Tables.RandomOk, Tables.AddrOk, Tables.NewOk, Tables.TriedOk, Tables.CountsOk, Tables.SizesOk, Tables.TimesOk;
    assert SameIndex(t, u) && SameTried(t, u);
    SameIndexKeeps(t, u);
    SameTriedKeeps(t, u);
    DropRefUnlinks(t, b, id);
    hide Tables.Forget, Tables.DropRef, SameIndex, SameTried;
    if u.mapInfo[id].nRefCount == 0 {
      ForgetValid(u, id, pending);
    }
  }

  // ----- entering the new table

  /** The entry that Create makes, already counted for the bucket it is about to enter. */
  function Fresh(t: Tables, info: AddrInfo): Tables {
    t.(nIdCount := t.nIdCount + 1, nNew := t.nNew + 1, vRandom := t.vRandom + [t.nIdCount],
       mapAddr := t.mapAddr[info.service.ip := t.nIdCount],
       mapInfo := t.mapInfo[t.nIdCount := info.(nRefCount := 1, fInTried := false, nRandomPos := |t.vRandom|)])
  }

  lemma FreshHolders(t: Tables, id: int, pending: set<int>)
    requires t.NewOk(pending) && id !in t.mapInfo
    ensures Holders(t.vvNew, id) == {}
  {
    forall b | 0 <= b < |t.vvNew| ensures id !in t.vvNew[b] {}
  }

  lemma FreshNewOk(t: Tables, info: AddrInfo)
    requires t.NewOk({}) && t.nIdCount !in t.mapInfo
    ensures Fresh(t, info).NewOk({t.nIdCount})
  {
    FreshHolders(t, t.nIdCount, {});
  }

  lemma FreshValid(t: Tables, info: AddrInfo)
    requires t.Valid({}) && info.service.ip !in t.mapAddr
    ensures Fresh(t, info).Valid({t.nIdCount})
    ensures t.TimesOk() && info.nLastTry == 0 && info.nLastSuccess == 0 ==> Fresh(t, info).TimesOk()
  {
    var u := Fresh(t, info);
    assert t.nIdCount !in t.mapInfo;
    hide Tables.RandomOk, Tables.AddrOk, Tables.NewOk, Tables.TriedOk;
    FreshNewOk(t, info);
    FreshCounts(t, info);
    assert u.SizesOk();
    hide Tables.CountsOk, Tables.SizesOk;
    FreshRandom(t, info);
    FreshAddr(t, info);
    FreshTried(t, info);
  }

  lemma FreshCounts(t: Tables, info: AddrInfo)
    requires t.CountsOk() && t.nIdCount !in t.mapInfo
    ensures Fresh(t, info).CountsOk()
  {
    MapUpdateIds(t.mapInfo, t.nIdCount, Fresh(t, info).mapInfo[t.nIdCount]);
    assert NewIds(Fresh(t, info).mapInfo) == NewIds(t.mapInfo) + {t.nIdCount};
    assert TriedIds(Fresh(t, info).mapInfo) == TriedIds(t.mapInfo);
  }

  lemma FreshRandom(t: Tables, info: AddrInfo)
    requires t.RandomOk() && t.nIdCount !in t.mapInfo
    ensures Fresh(t, info).RandomOk()
  {
  }

  lemma FreshAddr(t: Tables, info: AddrInfo)
    requires t.AddrOk() && info.service.ip !in t.mapAddr
    ensures Fresh(t, info).AddrOk()
  {
  }

  lemma FreshTried(t: Tables, info: AddrInfo)
    requires t.TriedOk() && t.nIdCount !in t.mapInfo
    ensures Fresh(t, info).TriedOk()
  {
  }

  /** One more reference for a new entry, ahead of the bucket it is about to enter. */
  function Raise(t: Tables, id: int): Tables
    requires id in t.mapInfo
  {
    t.(mapInfo := t.mapInfo[id := t.mapInfo[id].(nRefCount := t.mapInfo[id].nRefCount + 1)])
  }

  lemma RaiseValid(t: Tables, id: int)
    requires t.Valid({}) && id in t.mapInfo && !t.mapInfo[id].fInTried
    requires t.mapInfo[id].nRefCount < NEW_BUCKETS_PER_ADDRESS
    ensures Raise(t, id).Valid({id})
    ensures t.TimesOk() ==> Raise(t, id).TimesOk()
  {
    RecountKeeps(t, id, Raise(t, id).mapInfo[id]);
    RaiseNewOk(t, id);
    hide Tables.RandomOk, Tables.AddrOk, Tables.NewOk, Tables.TriedOk, Tables.CountsOk;
  }

  lemma RaiseNewOk(t: Tables, id: int)
    requires t.NewOk({}) && id in t.mapInfo && t.mapInfo[id].nRefCount < NEW_BUCKETS_PER_ADDRESS
    ensures Raise(t, id).NewOk({id})
  {
  }

  function Enter(t: Tables, b: int, id: int): Tables
    requires 0 <= b < |t.vvNew|
  {
    t.(vvNew := t.vvNew[b := t.vvNew[b] + {id}])
  }

  lemma EnterValid(t: Tables, b: int, id: int)
    requires t.Valid({id}) && 0 <= b < |t.vvNew| && id in t.mapInfo && !t.mapInfo[id].fInTried
    requires id !in t.vvNew[b] && |t.vvNew[b]| < NEW_BUCKET_SIZE
    ensures Enter(t, b, id).Valid({})
    ensures t.TimesOk() ==> Enter(t, b, id).TimesOk()
  {
    var u := Enter(t, b, id);
    EnterNewOk(t, b, id);
    assert u.SizesOk() by {
      assert |u.vvNew[b]| == |t.vvNew[b]| + 1;
    }
    assert SameIndex(t, u) && SameTried(t, u);
    SameIndexKeeps(t, u);
    SameTriedKeeps(t, u);
    hide Tables.RandomOk, Tables.AddrOk, Tables.NewOk, Tables.TriedOk, Tables.CountsOk;
  }

  lemma EnterNewOk(t: Tables, b: int, id: int)
    requires t.NewOk({id}) && 0 <= b < |t.vvNew| && id in t.mapInfo && !t.mapInfo[id].fInTried
    requires id !in t.vvNew[b]
    ensures Enter(t, b, id).NewOk({})
  {
    var u := Enter(t, b, id);
    HoldersInsert(t.vvNew, b, id);
    assert b !in Holders(t.vvNew, id);
    forall c, x | 0 <= c < |u.vvNew| && x in u.vvNew[c] ensures x == id || x in t.vvNew[c] {}
  }

  // ----- moving to the tried table

  /** Every new bucket without an id. */
  function Strip(vvNew: seq<set<int>>, id: int): (r: seq<set<int>>)
    ensures |r| == |vvNew| && forall b :: 0 <= b < |r| ==> r[b] == vvNew[b] - {id}
  {
    seq(|vvNew|, b requires 0 <= b < |vvNew| => vvNew[b] - {id})
  }

  lemma StripHolders(vvNew: seq<set<int>>, id: int)
    ensures Holders(Strip(vvNew, id), id) == {}
    ensures forall x :: x != id ==> Holders(Strip(vvNew, id), x) == Holders(vvNew, x)
  {
    forall x | x != id ensures Holders(Strip(vvNew, id), x) == Holders(vvNew, x) {
      assert forall c :: 0 <= c < |vvNew| ==> (x in Strip(vvNew, id)[c] <==> x in vvNew[c]);
    }
  }

  lemma SubsetSize<T>(a: set<T>, b: set<T>)
    requires a <= b
    ensures |a| <= |b|
  {
    assert b == a + (b - a);
  }

  /** A tried bucket with one more member. */
  ghost predicate Gains(before: seq<int>, after: seq<int>, id: int) {
    NoRepeats(after) && id in after && forall x :: x != id ==> (x in before <==> x in after)
  }

  /** The tables with an entry taken from all new buckets and its tried bucket replaced by one holding it. */
  function Promote(t: Tables, id: int, k: int, bucket: seq<int>): Tables
    requires id in t.mapInfo && 0 <= k < |t.vvTried|
  {
    t.(vvNew := Strip(t.vvNew, id), nNew := t.nNew - 1, nTried := t.nTried + 1, vvTried := t.vvTried[k := bucket],
       mapInfo := t.mapInfo[id := t.mapInfo[id].(nRefCount := 0, fInTried := true)])
  }

  lemma PromoteNewOk(t: Tables, id: int, k: int, bucket: seq<int>)
    requires t.NewOk({}) && id in t.mapInfo && 0 <= k < |t.vvTried|
    ensures Promote(t, id, k, bucket).NewOk({})
  {
    var u := Promote(t, id, k, bucket);
    StripHolders(t.vvNew, id);
    forall c, x | 0 <= c < |u.vvNew| && x in u.vvNew[c] ensures x != id && x in t.vvNew[c] {}
  }

  lemma PromoteTriedOk(t: Tables, id: int, k: int, bucket: seq<int>)
    requires t.TriedOk() && id in t.mapInfo && !t.mapInfo[id].fInTried
    requires k == t.net.TriedBucket(t.nKey, t.mapInfo[id].service) && Gains(t.vvTried[k], bucket, id)
    ensures Promote(t, id, k, bucket).TriedOk()
  {
    var u := Promote(t, id, k, bucket);
    forall j, x | 0 <= j < |u.vvTried| && x in u.vvTried[j]
      ensures x in t.vvTried[j] || (x == id && j == k) {}
    forall x | x in u.mapInfo && u.mapInfo[x].fInTried && x != id
      ensures x in u.vvTried[t.net.TriedBucket(t.nKey, u.mapInfo[x].service)]
    {
      assert x in t.vvTried[t.net.TriedBucket(t.nKey, t.mapInfo[x].service)];
    }
  }

  /** All of Valid but the bucket sizes. */
  lemma PromoteKeeps(t: Tables, id: int, k: int, bucket: seq<int>)
    requires t.RandomOk() && t.AddrOk() && t.NewOk({}) && t.TriedOk() && t.CountsOk()
    requires id in t.mapInfo && !t.mapInfo[id].fInTried
    requires k == t.net.TriedBucket(t.nKey, t.mapInfo[id].service) && Gains(t.vvTried[k], bucket, id)
    ensures Promote(t, id, k, bucket).RandomOk() && Promote(t, id, k, bucket).AddrOk()
    ensures Promote(t, id, k, bucket).NewOk({}) && Promote(t, id, k, bucket).TriedOk()
    ensures Promote(t, id, k, bucket).CountsOk()
    ensures t.TimesOk() && t.mapInfo[id].nLastSuccess > 0 ==> Promote(t, id, k, bucket).TimesOk()
  {
    var u := Promote(t, id, k, bucket);
    PromoteNewOk(t, id, k, bucket);
    PromoteTriedOk(t, id, k, bucket);
    MapUpdateIds(t.mapInfo, id, u.mapInfo[id]);
    assert SameIndex(t, u);
    SameIndexKeeps(t, u);
    hide Tables.RandomOk, Tables.AddrOk, Tables.NewOk, Tables.TriedOk;
  }

  /** The tables with a tried entry taken from its tried bucket and put into one new bucket. */
  function Demote(t: Tables, loser: int, k: int, bucket: seq<int>, dest: int): Tables
    requires loser in t.mapInfo && 0 <= k < |t.vvTried| && 0 <= dest < |t.vvNew|
  {
    t.(vvNew := t.vvNew[dest := t.vvNew[dest] + {loser}], nNew := t.nNew + 1, nTried := t.nTried - 1,
       vvTried := t.vvTried[k := bucket],
       mapInfo := t.mapInfo[loser := t.mapInfo[loser].(nRefCount := 1, fInTried := false)])
  }

  /** A tried bucket with one member fewer. */
  ghost predicate Loses(before: seq<int>, after: seq<int>, id: int) {
    NoRepeats(after) && id !in after && forall x :: x != id ==> (x in before <==> x in after)
  }

  lemma DemoteNewOk(t: Tables, loser: int, k: int, bucket: seq<int>, dest: int)
    requires t.NewOk({}) && loser in t.mapInfo && t.mapInfo[loser].fInTried
    requires 0 <= k < |t.vvTried| && 0 <= dest < |t.vvNew|
    ensures Demote(t, loser, k, bucket, dest).NewOk({})
  {
    var u := Demote(t, loser, k, bucket, dest);
    forall b | 0 <= b < |t.vvNew| ensures loser !in t.vvNew[b] {}
    assert Holders(t.vvNew, loser) == {};
    HoldersInsert(t.vvNew, dest, loser);
    forall c, x | 0 <= c < |u.vvNew| && x in u.vvNew[c] ensures x == loser || x in t.vvNew[c] {}
  }

  lemma DemoteTriedOk(t: Tables, loser: int, k: int, bucket: seq<int>, dest: int)
    requires t.TriedOk() && 0 <= k < |t.vvTried| && loser in t.vvTried[k] && 0 <= dest < |t.vvNew|
    requires Loses(t.vvTried[k], bucket, loser)
    ensures Demote(t, loser, k, bucket, dest).TriedOk()
  {
    var u := Demote(t, loser, k, bucket, dest);
    forall j, x | 0 <= j < |u.vvTried| && x in u.vvTried[j] ensures x != loser && x in t.vvTried[j] {}
    forall x | x in u.mapInfo && u.mapInfo[x].fInTried
      ensures x in u.vvTried[t.net.TriedBucket(t.nKey, u.mapInfo[x].service)]
    {
      assert x in t.vvTried[t.net.TriedBucket(t.nKey, t.mapInfo[x].service)];
    }
  }

  lemma DemoteKeeps(t: Tables, loser: int, k: int, bucket: seq<int>, dest: int)
    requires t.RandomOk() && t.AddrOk() && t.NewOk({}) && t.TriedOk() && t.CountsOk()
    requires 0 <= k < |t.vvTried| && loser in t.vvTried[k] && 0 <= dest < |t.vvNew|
    requires Loses(t.vvTried[k], bucket, loser)
    ensures Demote(t, loser, k, bucket, dest).RandomOk() && Demote(t, loser, k, bucket, dest).AddrOk()
    ensures Demote(t, loser, k, bucket, dest).NewOk({}) && Demote(t, loser, k, bucket, dest).TriedOk()
    ensures Demote(t, loser, k, bucket, dest).CountsOk()
    ensures t.TimesOk() ==> Demote(t, loser, k, bucket, dest).TimesOk()
  {
    var u := Demote(t, loser, k, bucket, dest);
    DemoteNewOk(t, loser, k, bucket, dest);
    DemoteTriedOk(t, loser, k, bucket, dest);
    MapUpdateIds(t.mapInfo, loser, u.mapInfo[loser]);
    assert SameIndex(t, u);
    SameIndexKeeps(t, u);
    hide Tables.RandomOk, Tables.AddrOk, Tables.NewOk, Tables.TriedOk;
  }

  lemma RemoveAt(w: seq<int>, pos: int, id: int)
    requires NoRepeats(w) && 0 <= pos < |w| && id !in w
    ensures Loses(w, w[..pos] + w[pos + 1..], w[pos])
    ensures Gains(w[..pos] + w[pos + 1..], w[pos := id], id)
  {
    var v := w[..pos] + w[pos + 1..];
    forall x | x != w[pos] ensures x in w <==> x in v {
      if x in w { var i :| 0 <= i < |w| && w[i] == x; assert v[if i < pos then i else i - 1] == x; }
    }
    forall x | x != id ensures x in v <==> x in w[pos := id] {
      if x in v {
        var i :| 0 <= i < |v| && v[i] == x;
        assert w[pos := id][if i < pos then i else i + 1] == x;
      }
      if x in w[pos := id] {
        var i :| 0 <= i < |w| && w[pos := id][i] == x;
        assert v[if i < pos then i else i - 1] == x;
      }
    }
    assert w[pos := id][pos] == id;
  }
}
