/** What it means for tables to pass the consistency check of src/addrman.cpp. */
module AddrSound {

  import opened AddrTables
  import opened AddrCheck
  import Ascending

  /** What the check does not look at: addresses in the index that no entry has, ids beyond the counter, whether a tried
      entry is in its own bucket, and the sizes of the buckets. (A missing index entry passes for id 0.) */
  ghost predicate Unseen(t: Tables) {
    && |t.vvTried| == TRIED_BUCKET_COUNT && |t.vvNew| == NEW_BUCKET_COUNT && t.SizesOk()
    && 0 <= t.nIdCount && (forall id :: id in t.mapInfo ==> 0 <= id < t.nIdCount)
    && (forall id :: id in t.mapInfo ==> t.mapInfo[id].service.ip in t.mapAddr)
    && (forall a :: a in t.mapAddr ==> t.mapAddr[a] in t.mapInfo && t.mapInfo[t.mapAddr[a]].service.ip == a)
    && (forall k, id :: 0 <= k < |t.vvTried| && id in t.vvTried[k] && id in t.mapInfo ==>
          t.net.TriedBucket(t.nKey, t.mapInfo[id].service) == k)
  }

  /** Tables pass the check exactly if they are consistent and have sensible times, up to what it does not look at. */
  lemma CheckedExact(t: Tables)
    ensures Checked(t) && Unseen(t) <==> t.Valid({}) && t.TimesOk()
  {
    if t.Valid({}) && t.TimesOk() {
      ValidChecked(t);
      ValidUnseen(t);
    }
    if Checked(t) && Unseen(t) {
      CheckedRandom(t);
      CheckedNew(t);
      CheckedTried(t);
      CheckedTimes(t);
      hide Tables.RandomOk, Tables.NewOk, Tables.TriedOk, ListsOnce, RefsExact;
    }
  }

  lemma ValidUnseen(t: Tables)
    requires t.Valid({})
    ensures Unseen(t)
  {
  }

  lemma CheckedTimes(t: Tables)
    requires Checked(t) && Unseen(t)
    ensures t.TimesOk() && t.AddrOk() && t.CountsOk()
  {
    hide ListsOnce, RefsExact;
  }

  lemma {:induction false} PlacesSize(ids: set<int>, places: set<int>, vRandom: seq<int>, m: map<int, AddrInfo>)
    requires forall id :: id in ids ==> id in m && 0 <= m[id].nRandomPos < |vRandom| && vRandom[m[id].nRandomPos] == id
    requires places == set id | id in ids :: m[id].nRandomPos
    ensures |places| == |ids|
    decreases |ids|
  {
    if |ids| == 0 {
      assert places == {};
    } else {
      Ascending.SomeElement(ids);
      var x :| x in ids;
      var p := m[x].nRandomPos;
      var rest := set id | id in ids - {x} :: m[id].nRandomPos;
      PlacesSize(ids - {x}, rest, vRandom, m);
      assert p !in rest;
      assert places == rest + {p};
    }
  }

  lemma {:induction false} FullRange(places: set<int>, n: nat, i: int)
    requires |places| == n && (forall p :: p in places ==> 0 <= p < n) && 0 <= i < n
    ensures i in places
  {
    if i !in places { Bounded(places, n, i); }
  }

  lemma {:induction false} Bounded(places: set<int>, n: nat, i: int)
    requires (forall p :: p in places ==> 0 <= p < n) && 0 <= i < n && i !in places
    ensures |places| < n
    decreases n
  {
    if n - 1 in places {
      Bounded(places - {n - 1}, n - 1, i);
    } else if i < n - 1 {
      Bounded(places, n - 1, i);
    } else {
      AtMost(places, n - 1);
    }
  }

  lemma {:induction false} AtMost(places: set<int>, n: nat)
    requires forall p :: p in places ==> 0 <= p < n
    ensures |places| <= n
  {
    if n == 0 {
      assert forall p :: p !in places;
      if |places| > 0 { Ascending.SomeElement(places); }
    } else {
      AtMost(places - {n - 1}, n - 1);
    }
  }

  /** vRandom has as many places as there are entries, so the back pointers leave none over. */
  lemma CheckedRandom(t: Tables)
    requires Checked(t)
    ensures t.RandomOk()
  {
    hide ListsOnce, RefsExact;
    StatusSizes(t.mapInfo);
    var places := set id | id in t.mapInfo.Keys :: t.mapInfo[id].nRandomPos;
    PlacesSize(t.mapInfo.Keys, places, t.vRandom, t.mapInfo);
    forall i | 0 <= i < |t.vRandom| ensures t.vRandom[i] in t.mapInfo && t.mapInfo[t.vRandom[i]].nRandomPos == i {
      FullRange(places, |t.vRandom|, i);
      var id :| id in t.mapInfo.Keys && t.mapInfo[id].nRandomPos == i;
    }
  }

  lemma CheckedNew(t: Tables)
    requires Checked(t) && Unseen(t)
    ensures t.NewOk({})
  {
    hide ListsOnce;
    forall b, id | 0 <= b < |t.vvNew| && id in t.vvNew[b] ensures id in t.mapInfo && !t.mapInfo[id].fInTried {
      assert b in Holders(t.vvNew, id);
      assert |Holders(t.vvNew, id)| > 0;
      assert id in RefCounts(t.mapInfo);
    }
    forall id | id in t.mapInfo && !t.mapInfo[id].fInTried
      ensures t.mapInfo[id].nRefCount == |Holders(t.vvNew, id)|
    {
      assert id in RefCounts(t.mapInfo);
    }
  }

  lemma CheckedTried(t: Tables)
    requires Checked(t) && Unseen(t)
    ensures t.TriedOk()
  {
    hide RefsExact;
    forall k | 0 <= k < |t.vvTried| ensures NoRepeats(t.vvTried[k]) { ConcatPart(t.vvTried, k); }
    forall k, id | 0 <= k < |t.vvTried| && id in t.vvTried[k]
      ensures id in t.mapInfo && t.mapInfo[id].fInTried
    {
      ConcatMember(t.vvTried, id);
      assert id in TriedIds(t.mapInfo);
    }
    forall id | id in t.mapInfo && t.mapInfo[id].fInTried
      ensures id in t.vvTried[t.net.TriedBucket(t.nKey, t.mapInfo[id].service)]
    {
      assert id in TriedIds(t.mapInfo);
      assert id in Concat(t.vvTried);
      ConcatMember(t.vvTried, id);
    }
  }

  lemma ConcatPart(s: seq<seq<int>>, k: nat)
    requires k < |s| && NoRepeats(Concat(s))
    ensures NoRepeats(s[k])
  {
    hide Concat, NoRepeats;
    ConcatSplit(s, k);
    MiddlePart(Concat(s[..k]), s[k], Concat(s[k + 1..]));
  }

  lemma MiddlePart(a: seq<int>, b: seq<int>, c: seq<int>)
    requires NoRepeats(a + b + c)
    ensures NoRepeats(b)
  {
    forall i, j | 0 <= i < j < |b| ensures b[i] != b[j] {
      assert (a + b + c)[|a| + i] == b[i] && (a + b + c)[|a| + j] == b[j];
    }
  }
}
