/** What the consistency check of src/addrman.cpp accepts, as a predicate on the tables, and the proof that
    it accepts all tables the operations can produce. */
module AddrCheck {
  import opened AddrTables
  import Ascending

  function Lookup(mapAddr: map<NetAddr, int>, ip: NetAddr): int {
    if ip in mapAddr then mapAddr[ip] else 0
  }

  predicate EntryOk(t: Tables, id: int)
    requires id in t.mapInfo
  {
    var info := t.mapInfo[id];
    && (if info.fInTried then info.nLastSuccess != 0 && info.nRefCount == 0
        else 1 <= info.nRefCount <= NEW_BUCKETS_PER_ADDRESS)
    && Lookup(t.mapAddr, info.service.ip) == id
    && 0 <= info.nRandomPos < |t.vRandom| && t.vRandom[info.nRandomPos] == id
    && info.nLastTry >= 0 && info.nLastSuccess >= 0
  }

  function Concat(s: seq<seq<int>>): seq<int> {
    if s == [] then [] else Concat(s[..|s| - 1]) + s[|s| - 1]
  }

  /** The tried buckets together list the given ids, each once. */
  ghost predicate ListsOnce(vvTried: seq<seq<int>>, ids: set<int>) {
    NoRepeats(Concat(vvTried)) && forall x :: x in Concat(vvTried) <==> x in ids
  }

  /** Each id is in as many buckets as its reference count says, and the buckets hold nothing else. */
  ghost predicate RefsExact(vvNew: seq<set<int>>, refs: map<int, int>) {
    forall id :: |Holders(vvNew, id)| == if id in refs then refs[id] else 0
  }

  function RefCounts(m: map<int, AddrInfo>): map<int, int> {
    map id | id in m && !m[id].fInTried :: m[id].nRefCount
  }

  /** The check passes. */
  ghost predicate Checked(t: Tables) {
    && |t.vRandom| == t.nTried + t.nNew
    && (forall id :: id in t.mapInfo ==> EntryOk(t, id))
    && |TriedIds(t.mapInfo)| == t.nTried && |NewIds(t.mapInfo)| == t.nNew
    && ListsOnce(t.vvTried, TriedIds(t.mapInfo))
    && RefsExact(t.vvNew, RefCounts(t.mapInfo))
  }

  lemma {:induction false} ConcatMember(s: seq<seq<int>>, x: int)
    ensures x in Concat(s) <==> exists k :: 0 <= k < |s| && x in s[k]
  {
    if s != [] {
      var r := s[..|s| - 1];
      ConcatMember(r, x);
      assert x in Concat(s) <==> x in Concat(r) || x in s[|s| - 1];
      if k :| 0 <= k < |r| && x in r[k] { assert x in s[k]; }
      if k :| 0 <= k < |s| && x in s[k] { assert k < |r| ==> x in r[k]; }
    }
  }

  /** Buckets without repeats and without common members concatenate without repeats. */
  lemma {:induction false} ConcatNoRepeats(s: seq<seq<int>>)
    requires forall k :: 0 <= k < |s| ==> NoRepeats(s[k])
    requires forall j, k, x :: 0 <= j < |s| && 0 <= k < |s| && x in s[j] && x in s[k] ==> j == k
    ensures NoRepeats(Concat(s))
  {
    if s != [] {
      var r, last := s[..|s| - 1], s[|s| - 1];
      ConcatNoRepeats(r);
      forall x | x in last ensures x !in Concat(r) {
        ConcatMember(r, x);
        forall k | 0 <= k < |r| ensures x !in r[k] { assert r[k] == s[k]; }
      }
      NoRepeatsAppend(Concat(r), last);
    }
  }

  lemma NoRepeatsAppend(a: seq<int>, b: seq<int>)
    requires NoRepeats(a) && NoRepeats(b) && forall x :: x in b ==> x !in a
    ensures NoRepeats(a + b)
  {
    forall i, j | 0 <= i < j < |a + b| ensures (a + b)[i] != (a + b)[j] {
      if i < |a| && j >= |a| { assert b[j - |a|] in b; assert a[i] in a; }
    }
  }

  /** The ids in vRandom are those of mapInfo, each once. */
  lemma RandomSize(t: Tables)
    requires t.RandomOk()
    ensures |t.vRandom| == |t.mapInfo.Keys|
  {
    Enumerates(t.vRandom, t.mapInfo.Keys);
  }

  lemma {:induction false} Enumerates(s: seq<int>, ids: set<int>)
    requires NoRepeats(s) && forall x :: x in s <==> x in ids
    ensures |s| == |ids|
    decreases |s|
  {
    if s == [] {
      forall x ensures x !in ids { assert x !in s; }
    } else {
      var x, r := s[0], s[1..];
      assert x !in r;
      forall y ensures y in r <==> y in ids - {x} {
        assert s == [x] + r;
      }
      Enumerates(r, ids - {x});
    }
  }

  lemma StatusSizes(m: map<int, AddrInfo>)
    ensures |m.Keys| == |NewIds(m)| + |TriedIds(m)|
  {
    assert m.Keys == NewIds(m) + TriedIds(m);
  }

  /** Consistent tables with sensible times pass the check. */
  lemma ValidChecked(t: Tables)
    requires t.Valid({}) && t.TimesOk()
    ensures Checked(t)
  {
    assert |t.vRandom| == t.nTried + t.nNew by {
      RandomSize(t);
      StatusSizes(t.mapInfo);
    }
    ValidLists(t);
    ValidRefs(t);
    forall id | id in t.mapInfo ensures EntryOk(t, id) {}
  }

  lemma ValidLists(t: Tables)
    requires t.TriedOk()
    ensures ListsOnce(t.vvTried, TriedIds(t.mapInfo))
  {
    forall j, k, x | 0 <= j < |t.vvTried| && 0 <= k < |t.vvTried| && x in t.vvTried[j] && x in t.vvTried[k]
      ensures j == k
    {
      assert t.net.TriedBucket(t.nKey, t.mapInfo[x].service) == j;
    }
    ConcatNoRepeats(t.vvTried);
    forall x ensures x in Concat(t.vvTried) <==> x in TriedIds(t.mapInfo) {
      ConcatMember(t.vvTried, x);
    }
  }

  lemma ValidRefs(t: Tables)
    requires t.NewOk({})
    ensures RefsExact(t.vvNew, RefCounts(t.mapInfo))
  {
    forall id ensures |Holders(t.vvNew, id)| == if id in RefCounts(t.mapInfo) then RefCounts(t.mapInfo)[id] else 0 {
      if id !in RefCounts(t.mapInfo) {
        forall b | 0 <= b < |t.vvNew| ensures id !in t.vvNew[b] {}
        assert Holders(t.vvNew, id) == {};
      }
    }
  }

  // ----- the loops of the check

  /** One more listed id. */
  lemma ListsStep(flat: seq<int>, x: int, ids: set<int>, left: set<int>)
    requires NoRepeats(flat) && (forall y :: y in flat ==> y in ids) && left == (set y | y in ids && y !in flat)
    ensures x in left ==> NoRepeats(flat + [x]) && forall y :: y in flat + [x] ==> y in ids
    ensures left - {x} == (set y | y in ids && y !in flat + [x])
    ensures x !in left ==> x !in ids || x in flat
  {
  }

  /** Whatever follows, a listing that repeats an id or has a foreign one fails. */
  lemma BadPrefix(a: seq<int>, x: int, b: seq<int>, ids: set<int>)
    requires x !in ids || x in a
    ensures !(NoRepeats(a + [x] + b) && forall y :: y in a + [x] + b <==> y in ids)
  {
    var s := a + [x] + b;
    assert s[|a|] == x && x in s;
    if x in a {
      var i :| 0 <= i < |a| && a[i] == x;
      assert s[i] == s[|a|];
    }
  }

  lemma {:induction false} ConcatSplit(s: seq<seq<int>>, k: nat)
    requires k < |s|
    ensures Concat(s) == Concat(s[..k]) + s[k] + Concat(s[k + 1..])
    decreases |s|
  {
    var r := s[..|s| - 1];
    if k == |r| {
      assert s[k + 1..] == [];
    } else {
      ConcatSplit(r, k);
      assert r[..k] == s[..k] && r[k + 1..] == s[k + 1..][..|s| - k - 2];
    }
  }

  lemma ConcatNext(s: seq<seq<int>>, k: nat)
    requires k < |s|
    ensures Concat(s[..k + 1]) == Concat(s[..k]) + s[k]
  {
    assert s[..k + 1][..k] == s[..k];
  }

  /** The second loop: strikes the ids listed in the tried buckets from the set. */
  method CheckTried(vvTried: seq<seq<int>>, ids: set<int>) returns (code: int, setTried: set<int>)
    ensures code == 0 || code == -11
    ensures code == 0 && |setTried| == 0 <==> ListsOnce(vvTried, ids)
  {
    setTried := ids;
    ghost var flat := [];
    var n := 0;
    while n < |vvTried|
      invariant 0 <= n <= |vvTried| && flat == Concat(vvTried[..n])
      invariant NoRepeats(flat) && (forall y :: y in flat ==> y in ids) && setTried == set y | y in ids && y !in flat
    {
      var vTried := vvTried[n];
      ghost var before := flat;
      var i := 0;
      while i < |vTried|
        invariant 0 <= i <= |vTried| && flat == before + vTried[..i]
        invariant NoRepeats(flat) && (forall y :: y in flat ==> y in ids) && setTried == set y | y in ids && y !in flat
      {
        ListsStep(flat, vTried[i], ids, setTried);
        if vTried[i] !in setTried {
          ConcatSplit(vvTried, n);
          BadPrefix(flat, vTried[i], vTried[i + 1..] + Concat(vvTried[n + 1..]), ids);
          assert Concat(vvTried) == flat + [vTried[i]] + (vTried[i + 1..] + Concat(vvTried[n + 1..]));
          return -11, setTried;
        }
        setTried := setTried - {vTried[i]};
        flat := flat + [vTried[i]];
        i := i + 1;
      }
      ConcatNext(vvTried, n);
      n := n + 1;
    }
    assert vvTried[..n] == vvTried;
    code := 0;
    ListedAll(flat, ids, setTried);
  }

  lemma ListedAll(flat: seq<int>, ids: set<int>, left: set<int>)
    requires (forall y :: y in flat ==> y in ids) && left == set y | y in ids && y !in flat
    ensures |left| == 0 <==> forall y :: y in flat <==> y in ids
  {
    if |left| == 0 {
      forall y | y in ids ensures y in flat {
        assert y !in left;
      }
    } else {
      Ascending.SomeElement(left);
    }
  }

  /** How often an id has been met when buckets below b and the part "done" of bucket b have been walked. */
  ghost function Met(vvNew: seq<set<int>>, b: nat, done: set<int>, id: int): nat
    requires b <= |vvNew|
  {
    |Holders(vvNew[..b], id)| + if id in done then 1 else 0
  }

  ghost function Owed(refs: map<int, int>, id: int): int {
    if id in refs then refs[id] else 0
  }

  /** What is left of the reference counts after that walk. */
  ghost predicate Remaining(refs: map<int, int>, mapNew: map<int, int>, vvNew: seq<set<int>>, b: nat, done: set<int>)
    requires b <= |vvNew|
  {
    forall id :: Owed(mapNew, id) == Owed(refs, id) - Met(vvNew, b, done, id) && (id in mapNew ==> mapNew[id] > 0)
      && Owed(mapNew, id) >= 0
  }

  lemma HoldersPrefix(vvNew: seq<set<int>>, b: nat, id: int)
    requires b < |vvNew|
    ensures |Holders(vvNew[..b + 1], id)| == |Holders(vvNew[..b], id)| + if id in vvNew[b] then 1 else 0
  {
    assert Holders(vvNew[..b + 1], id) == Holders(vvNew[..b], id) + if id in vvNew[b] then {b} else {};
  }

  lemma MetAtMost(vvNew: seq<set<int>>, b: nat, done: set<int>, id: int)
    requires b < |vvNew| && done <= vvNew[b]
    ensures Met(vvNew, b, done, id) + (if id in vvNew[b] && id !in done then 1 else 0) <= |Holders(vvNew, id)|
  {
    HoldersPrefix(vvNew, b, id);
    assert Holders(vvNew[..b + 1], id) <= Holders(vvNew, id);
    SubsetSize(Holders(vvNew[..b + 1], id), Holders(vvNew, id));
  }

  lemma MetNext(refs: map<int, int>, mapNew: map<int, int>, vvNew: seq<set<int>>, b: nat)
    requires b < |vvNew| && Remaining(refs, mapNew, vvNew, b, vvNew[b])
    ensures Remaining(refs, mapNew, vvNew, b + 1, {})
  {
    forall id ensures Met(vvNew, b + 1, {}, id) == Met(vvNew, b, vvNew[b], id) {
      HoldersPrefix(vvNew, b, id);
    }
  }

  lemma MetOne(refs: map<int, int>, mapNew: map<int, int>, vvNew: seq<set<int>>, b: nat, done: set<int>, x: int)
    requires b < |vvNew| && Remaining(refs, mapNew, vvNew, b, done) && x !in done && x in mapNew
    ensures Remaining(refs, if mapNew[x] == 1 then mapNew - {x} else mapNew[x := mapNew[x] - 1], vvNew, b, done + {x})
  {
    var m := if mapNew[x] == 1 then mapNew - {x} else mapNew[x := mapNew[x] - 1];
    forall id ensures Owed(m, id) == Owed(mapNew, id) - (if id == x then 1 else 0) {}
    forall id ensures Met(vvNew, b, done + {x}, id) == Met(vvNew, b, done, id) + (if id == x then 1 else 0) {}
  }

  /** The third loop: pays back one reference for each bucket an id is in. */
  method CheckNew(vvNew: seq<set<int>>, refs: map<int, int>) returns (code: int, mapNew: map<int, int>)
    requires forall id :: id in refs ==> refs[id] > 0
    ensures code == 0 || code == -12
    ensures code == 0 && |mapNew| == 0 <==> RefsExact(vvNew, refs)
  {
    mapNew := refs;
    var n := 0;
    while n < |vvNew|
      invariant 0 <= n <= |vvNew|
      invariant Remaining(refs, mapNew, vvNew, n, {})
    {
      hide Remaining, RefsExact;
      code, mapNew := CheckBucket(vvNew, n, refs, mapNew);
      if code != 0 { return; }
      MetNext(refs, mapNew, vvNew, n);
      n := n + 1;
    }
    code := 0;
    PaidBack(vvNew, refs, mapNew);
  }

  method CheckBucket(vvNew: seq<set<int>>, n: nat, ghost refs: map<int, int>, mapIn: map<int, int>)
    returns (code: int, mapNew: map<int, int>)
    requires n < |vvNew| && Remaining(refs, mapIn, vvNew, n, {})
    ensures code == 0 || code == -12
    ensures if code == 0 then Remaining(refs, mapNew, vvNew, n, vvNew[n]) else !RefsExact(vvNew, refs)
  {
    mapNew := mapIn;
    var order := Ascending.Sequence(vvNew[n]);
    ghost var done: set<int> := {};
    var i := 0;
    hide Ascending.Sequence;
    while i < |order|
      invariant 0 <= i <= |order|
      invariant done <= vvNew[n] && forall x :: x in done <==> x in order[..i]
      invariant Remaining(refs, mapNew, vvNew, n, done)
    {
      var x := order[i];
      assert x in vvNew[n] && x !in done;
      if x !in mapNew {
        Unowed(vvNew, n, refs, mapNew, done, x);
        return -12, mapNew;
      }
      MetOne(refs, mapNew, vvNew, n, done, x);
      mapNew := if mapNew[x] == 1 then mapNew - {x} else mapNew[x := mapNew[x] - 1];
      done := done + {x};
      i := i + 1;
    }
    forall y ensures y in done <==> y in vvNew[n] { assert order[..i] == order; }
    assert done == vvNew[n];
    code := 0;
  }

  lemma Unowed(vvNew: seq<set<int>>, b: nat, refs: map<int, int>, mapNew: map<int, int>, done: set<int>, x: int)
    requires b < |vvNew| && Remaining(refs, mapNew, vvNew, b, done) && done <= vvNew[b]
    requires x in vvNew[b] && x !in done && x !in mapNew
    ensures !RefsExact(vvNew, refs)
  {
    MetAtMost(vvNew, b, done, x);
    assert Owed(mapNew, x) == 0;
    assert |Holders(vvNew, x)| != Owed(refs, x);
  }

  lemma PaidBack(vvNew: seq<set<int>>, refs: map<int, int>, mapNew: map<int, int>)
    requires Remaining(refs, mapNew, vvNew, |vvNew|, {})
    ensures |mapNew| == 0 <==> RefsExact(vvNew, refs)
  {
    assert vvNew[..|vvNew|] == vvNew;
    forall id ensures Met(vvNew, |vvNew|, {}, id) == |Holders(vvNew, id)| {}
    if |mapNew| == 0 {
      forall id ensures |Holders(vvNew, id)| == Owed(refs, id) {
        assert id !in mapNew;
      }
    } else {
      assert |mapNew.Keys| > 0;
      Ascending.SomeElement(mapNew.Keys);
      var id :| id in mapNew.Keys;
      assert Owed(mapNew, id) > 0 && |Holders(vvNew, id)| != Owed(refs, id);
    }
  }

  /** Reading a map at a missing key inserts a 0 there. */
  function Inserted(mapAddr: map<NetAddr, int>, ip: NetAddr): map<NetAddr, int> {
    if ip in mapAddr then mapAddr else mapAddr[ip := 0]
  }

  /** The first loop: the entries one by one. */
  method CheckEntries(t: Tables)
    returns (code: int, setTried: set<int>, mapNew: map<int, int>, mapAddr: map<NetAddr, int>)
    ensures code == 0 <==> forall id :: id in t.mapInfo ==> EntryOk(t, id)
    ensures code == 0 ==> setTried == TriedIds(t.mapInfo) && mapNew == RefCounts(t.mapInfo)
    ensures t.AddrOk() ==> mapAddr == t.mapAddr
  {
    setTried, mapNew, mapAddr := {}, map[], t.mapAddr;
    var order := Ascending.Sequence(t.mapInfo.Keys);
    ghost var done: set<int> := {};
    var i := 0;
    hide Ascending.Sequence, EntryOk, Lookup, Tables.AddrOk;
    while i < |order|
      invariant 0 <= i <= |order| && done <= t.mapInfo.Keys && forall x :: x in done <==> x in order[..i]
      invariant forall id :: id in done ==> EntryOk(t, id)
      invariant forall id :: id in setTried <==> id in done && t.mapInfo[id].fInTried
      invariant forall id :: id in mapNew <==> id in done && !t.mapInfo[id].fInTried
      invariant forall id :: id in mapNew ==> mapNew[id] == t.mapInfo[id].nRefCount
      invariant forall ip: NetAddr :: Lookup(mapAddr, ip) == Lookup(t.mapAddr, ip)
      invariant t.AddrOk() ==> mapAddr == t.mapAddr
    {
      var n := order[i];
      assert n in t.mapInfo.Keys;
      code, mapAddr := CheckEntry(t, n, mapAddr);
      if code != 0 { return; }
      if t.mapInfo[n].fInTried {
        setTried := setTried + {n};
      } else {
        mapNew := mapNew[n := t.mapInfo[n].nRefCount];
      }
      done := done + {n};
      i := i + 1;
    }
    forall y ensures y in done <==> y in t.mapInfo { assert order[..i] == order; }
    code := 0;
    SortedOut(t.mapInfo, setTried, mapNew);
  }

  lemma SortedOut(m: map<int, AddrInfo>, setTried: set<int>, mapNew: map<int, int>)
    requires forall id :: id in setTried <==> id in m && m[id].fInTried
    requires forall id :: id in mapNew <==> id in m && !m[id].fInTried
    requires forall id :: id in mapNew ==> mapNew[id] == m[id].nRefCount
    ensures setTried == TriedIds(m) && mapNew == RefCounts(m)
  {
    forall id: int ensures id in setTried <==> id in TriedIds(m) {}
    var refs := RefCounts(m);
    assert mapNew.Keys == refs.Keys by {
      forall id: int ensures id in mapNew.Keys <==> id in refs.Keys {}
    }
    forall id: int | id in mapNew ensures mapNew[id] == refs[id] {}
  }

  method CheckEntry(t: Tables, n: int, mapIn: map<NetAddr, int>) returns (code: int, mapAddr: map<NetAddr, int>)
    requires n in t.mapInfo && forall ip: NetAddr :: Lookup(mapIn, ip) == Lookup(t.mapAddr, ip)
    ensures code == 0 <==> EntryOk(t, n)
    ensures forall ip: NetAddr :: Lookup(mapAddr, ip) == Lookup(t.mapAddr, ip)
    ensures t.AddrOk() && mapIn == t.mapAddr ==> mapAddr == t.mapAddr
  {
    mapAddr := mapIn;
    var info := t.mapInfo[n];
    if info.fInTried {
      if info.nLastSuccess == 0 { return -1, mapAddr; }
      if info.nRefCount != 0 { return -2, mapAddr; }
    } else {
      if info.nRefCount < 0 || info.nRefCount > NEW_BUCKETS_PER_ADDRESS { return -3, mapAddr; }
      if info.nRefCount == 0 { return -4, mapAddr; }
    }
    mapAddr := Inserted(mapAddr, info.service.ip);
    assert Lookup(mapAddr, info.service.ip) == mapAddr[info.service.ip];
    if mapAddr[info.service.ip] != n { return -5, mapAddr; }
    if info.nRandomPos < 0 || info.nRandomPos >= |t.vRandom| || t.vRandom[info.nRandomPos] != n { return -14, mapAddr; }
    if info.nLastTry < 0 { return -6, mapAddr; }
    if info.nLastSuccess < 0 { return -8, mapAddr; }
    code := 0;
  }

  lemma RefKeys(m: map<int, AddrInfo>)
    ensures |RefCounts(m)| == |NewIds(m)|
  {
    assert RefCounts(m).Keys == NewIds(m);
  }

  lemma PositiveRefs(t: Tables)
    requires forall id :: id in t.mapInfo ==> EntryOk(t, id)
    ensures forall id :: id in RefCounts(t.mapInfo) ==> RefCounts(t.mapInfo)[id] > 0
  {
    forall id | id in RefCounts(t.mapInfo) ensures RefCounts(t.mapInfo)[id] > 0 {
      assert EntryOk(t, id);
    }
  }
}
