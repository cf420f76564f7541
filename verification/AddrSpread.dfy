/** How far one address range can spread in the tables: the design goal stated at the top of src/addrman.h. */
module AddrSpread {
  import opened AddrTables
  import opened AddrCheck
  import Ascending

  function Image(f: nat -> int, n: nat): set<int> {
    if n == 0 then {} else Image(f, n - 1) + {f(n - 1)}
  }

  lemma {:induction false} ImageBounds(f: nat -> int, n: nat)
    ensures |Image(f, n)| <= n && forall r: nat :: r < n ==> f(r) in Image(f, n)
  {
    if n > 0 { ImageBounds(f, n - 1); }
  }

  /** The tried buckets that the addresses of a group can go to. */
  function GroupBuckets(net: Net, nKey: seq<bv8>, group: seq<bv8>): set<int> {
    Image((r: nat) => net.hash([Bytes(nKey), Bytes(group), Num(r)]) % TRIED_BUCKET_COUNT, TRIED_BUCKETS_PER_GROUP)
  }

  /** The new buckets that addresses heard from a group of sources can go to. */
  function SourceBuckets(net: Net, nKey: seq<bv8>, group: seq<bv8>): set<int> {
    Image((r: nat) => net.hash([Bytes(nKey), Bytes(group), Num(r)]) % NEW_BUCKET_COUNT, NEW_BUCKETS_PER_SOURCE_GROUP)
  }

  /** Whatever the addresses, the sources of one group reach 32 of the 256 new buckets at most. */
  lemma SourceSpread(net: Net, nKey: seq<bv8>, ip: NetAddr, src: NetAddr)
    ensures net.NewBucket(nKey, ip, src) in SourceBuckets(net, nKey, net.groupOf(src))
    ensures |SourceBuckets(net, nKey, net.groupOf(src))| <= 32
  {
    var f := (r: nat) => net.hash([Bytes(nKey), Bytes(net.groupOf(src)), Num(r)]) % NEW_BUCKET_COUNT;
    ImageBounds(f, NEW_BUCKETS_PER_SOURCE_GROUP);
    var hash1 := net.hash([Bytes(nKey), Bytes(net.groupOf(ip)), Bytes(net.groupOf(src))]);
    assert f(hash1 % NEW_BUCKETS_PER_SOURCE_GROUP) in Image(f, NEW_BUCKETS_PER_SOURCE_GROUP);
  }

  lemma GroupSpread(net: Net, nKey: seq<bv8>, s: Service)
    ensures net.TriedBucket(nKey, s) in GroupBuckets(net, nKey, net.groupOf(s.ip))
    ensures |GroupBuckets(net, nKey, net.groupOf(s.ip))| <= 4
  {
    var f := (r: nat) => net.hash([Bytes(nKey), Bytes(net.groupOf(s.ip)), Num(r)]) % TRIED_BUCKET_COUNT;
    ImageBounds(f, TRIED_BUCKETS_PER_GROUP);
    var hash1 := net.hash([Bytes(nKey), Bytes(net.keyOf(s))]);
    assert f(hash1 % TRIED_BUCKETS_PER_GROUP) in Image(f, TRIED_BUCKETS_PER_GROUP);
  }

  /** The new bucket depends on the address ranges only. */
  lemma SameRanges(net: Net, nKey: seq<bv8>, ip: NetAddr, ip': NetAddr, src: NetAddr, src': NetAddr)
    requires net.groupOf(ip) == net.groupOf(ip') && net.groupOf(src) == net.groupOf(src')
    ensures net.NewBucket(nKey, ip, src) == net.NewBucket(nKey, ip', src')
  {
  }

  /** A transparent hash in place of the real one: the lengths of what is hashed, with the second field 32 apart before
      a number. An address is as long as its range, and a port as the key of its service. */
  function Transparent(): Net {
    Net((f: seq<Field>) => Sum(f), (ip: NetAddr) => seq(ip, _ => 0), (s: Service) => seq(s.port, _ => 0),
      (ip: NetAddr) => true, d => d)
  }

  function Length(f: Field): nat {
    if f.Bytes? then |f.b| else f.n
  }

  function Sum(f: seq<Field>): nat {
    if |f| == 3 && f[2].Num? then Length(f[0]) + 32 * Length(f[1]) + f[2].n
    else if |f| == 3 then Length(f[0]) + Length(f[1]) + Length(f[2])
    else if |f| == 2 then Length(f[0]) + Length(f[1])
    else 0
  }

  /** Both bounds are attained: there are hashes for which the sources of a range reach 32 different new buckets, and
      the addresses of a range 4 different tried ones; other ranges and other keys reach others. */
  lemma SpreadAttained(nKey: seq<bv8>, ip: NetAddr, src: NetAddr, port: nat)
    ensures Transparent().NewBucket(nKey, ip, src) == (|nKey| + 32 * src + (|nKey| + ip + src) % 32) % 256
    ensures Transparent().TriedBucket(nKey, Service(ip, port)) == (|nKey| + 32 * ip + (|nKey| + port) % 4) % 64
  {
  }

  /** The ids listed in some of the tried buckets. */
  ghost function Inside(vvTried: seq<seq<int>>, ks: set<int>, ids: set<int>): set<int> {
    set id | id in ids && exists k :: k in ks && 0 <= k < |vvTried| && id in vvTried[k]
  }

  lemma {:induction false} InsideSize(vvTried: seq<seq<int>>, ks: set<int>, ids: set<int>)
    requires forall k :: 0 <= k < |vvTried| ==> |vvTried[k]| <= TRIED_BUCKET_SIZE && NoRepeats(vvTried[k])
    ensures |Inside(vvTried, ks, ids)| <= TRIED_BUCKET_SIZE * |ks|
    decreases |ks|
  {
    if |ks| == 0 {
      assert Inside(vvTried, ks, ids) == {};
    } else {
      Ascending.SomeElement(ks);
      var k :| k in ks;
      InsideSize(vvTried, ks - {k}, ids);
      var own: set<int> := if 0 <= k < |vvTried| then set id | id in vvTried[k] else {};
      if 0 <= k < |vvTried| { Enumerates(vvTried[k], own); }
      assert Inside(vvTried, ks, ids) <= Inside(vvTried, ks - {k}, ids) + own;
      SubsetSize(Inside(vvTried, ks, ids), Inside(vvTried, ks - {k}, ids) + own);
    }
  }

  /** The ids in the first n new buckets. */
  ghost function Union(vvNew: seq<set<int>>, n: nat): set<int>
    requires n <= |vvNew|
  {
    if n == 0 then {} else Union(vvNew, n - 1) + vvNew[n - 1]
  }

  lemma {:induction false} UnionSize(vvNew: seq<set<int>>, n: nat)
    requires n <= |vvNew| && forall b :: 0 <= b < |vvNew| ==> |vvNew[b]| <= NEW_BUCKET_SIZE
    ensures |Union(vvNew, n)| <= NEW_BUCKET_SIZE * n
    ensures forall b, id :: 0 <= b < n && id in vvNew[b] ==> id in Union(vvNew, n)
  {
    if n > 0 {
      UnionSize(vvNew, n - 1);
      assert |Union(vvNew, n)| <= |Union(vvNew, n - 1)| + |vvNew[n - 1]|;
    }
  }

  /** The tables do not grow without bound: consistent ones hold at most 4096 tried and 16384 new entries. */
  lemma TablesBounded(t: Tables)
    requires t.Valid({})
    ensures t.nTried <= 4096 && t.nNew <= 16_384 && |t.vRandom| <= 20_480
  {
    TriedBounded(t);
    NewBounded(t);
    StatusSizes(t.mapInfo);
    RandomSize(t);
  }

  function Itself(k: nat): int { k }

  lemma TriedBounded(t: Tables)
    requires t.Valid({})
    ensures |TriedIds(t.mapInfo)| <= 4096
  {
    hide Tables.RandomOk, Tables.AddrOk, Tables.NewOk;
    var ks := Image(Itself, 64);
    ImageBounds(Itself, 64);
    InsideSize(t.vvTried, ks, TriedIds(t.mapInfo));
    forall id | id in TriedIds(t.mapInfo) ensures id in Inside(t.vvTried, ks, TriedIds(t.mapInfo)) {
      var k: nat := t.net.TriedBucket(t.nKey, t.mapInfo[id].service);
      assert Itself(k) in ks;
    }
    SubsetSize(TriedIds(t.mapInfo), Inside(t.vvTried, ks, TriedIds(t.mapInfo)));
  }

  lemma NewBounded(t: Tables)
    requires t.Valid({})
    ensures |NewIds(t.mapInfo)| <= 16_384
  {
    hide Tables.RandomOk, Tables.AddrOk, Tables.TriedOk;
    UnionSize(t.vvNew, 256);
    forall id | id in NewIds(t.mapInfo) ensures id in Union(t.vvNew, 256) {
      assert |Holders(t.vvNew, id)| > 0;
      Ascending.SomeElement(Holders(t.vvNew, id));
    }
    SubsetSize(NewIds(t.mapInfo), Union(t.vvNew, 256));
  }

  /** In consistent tables no group of addresses holds more than 4 * 64 of the 64 * 64 tried places. */
  lemma GroupShare(t: Tables, group: seq<bv8>)
    requires t.Valid({})
    ensures |set id | id in t.mapInfo && t.mapInfo[id].fInTried && t.net.groupOf(t.mapInfo[id].service.ip) == group|
      <= 4 * 64
  {
    var ours := set id | id in t.mapInfo && t.mapInfo[id].fInTried && t.net.groupOf(t.mapInfo[id].service.ip) == group;
    var ks := GroupBuckets(t.net, t.nKey, group);
    ImageBounds((r: nat) => t.net.hash([Bytes(t.nKey), Bytes(group), Num(r)]) % TRIED_BUCKET_COUNT,
      TRIED_BUCKETS_PER_GROUP);
    InsideSize(t.vvTried, ks, TriedIds(t.mapInfo));
    forall id | id in ours ensures id in Inside(t.vvTried, ks, TriedIds(t.mapInfo)) {
      GroupSpread(t.net, t.nKey, t.mapInfo[id].service);
    }
    SubsetSize(ours, Inside(t.vvTried, ks, TriedIds(t.mapInfo)));
  }
}
