/** Which entries src/addrman.cpp gives up, as the random numbers and the statistics of the entries decide. */
module AddrVictims {

  import opened AddrTables
  import opened AddrMoves
  import opened PowersOfTwo
  import Ascending

  // ----- a new bucket

  /** The bucket an address enters, and the first draw left for choosing the entry that makes room for it. */
  function BucketFor(t: Tables, addr: Address, source: NetAddr): nat {
    t.net.NewBucket(t.nKey, addr.service.ip, source)
  }

  function ChoiceDraw(t: Tables, addr: Address, d: nat): nat {
    if addr.service.ip in t.mapAddr then d + 1 else d
  }

  /** An entry leaves a new bucket only when another enters it full, and as GivesWay says. */
  lemma LeftAsVictim(t: Tables, addr: Address, source: NetAddr, nTimePenalty: int, nNow: int, d: nat, u: Tables,
                     victim: int, x: int)
    requires t.Valid({}) && HasShape(t) && Added(t, addr, source, nTimePenalty, nNow, d, u, victim)
    requires var b := BucketFor(t, addr, source); x in t.vvNew[b] && x !in u.vvNew[b]
    ensures var bucket := t.vvNew[BucketFor(t, addr, source)];
      && |bucket| == 64 && x == victim && (forall y :: y in bucket ==> y in t.mapInfo)
      && GivesWay(t.net, t.mapInfo, bucket, nNow, ChoiceDraw(t, addr, d), x)
  {
    hide Tables.RandomOk, Tables.NewOk, Tables.TriedOk, Tables.CountsOk, Tables.SizesOk, GivesWay;
    var b := BucketFor(t, addr, source);
    InBucket(t, b, {});
    FreshNowhere(t, t.nIdCount);
    if addr.service.ip in t.mapAddr {
      var id := t.mapAddr[addr.service.ip];
      var s := Touch(t, id, Heard(t.mapInfo[id], addr, nTimePenalty, nNow));
      HeardSettles(t, id, addr, nTimePenalty, nNow, b);
      WayAlike(t.net, t.mapInfo, Raise(s, id).mapInfo, t.vvNew[b], nNow, d + 1, victim);
      if |t.vvNew[b]| == 64 { DropRefFacts(Raise(s, id), b, victim); }
    } else {
      var r := Fresh(t, NewInfo(addr, source, nTimePenalty));
      FreshValid(t, NewInfo(addr, source, nTimePenalty));
      FreshKeeps(t, NewInfo(addr, source, nTimePenalty), b);
      WayAlike(t.net, t.mapInfo, r.mapInfo, t.vvNew[b], nNow, d, victim);
      if |t.vvNew[b]| == 64 { DropRefFacts(r, b, victim); }
    }
  }

  /** Only the entries of the bucket matter for the choice. */
  lemma WayAlike(net: Net, m: map<int, AddrInfo>, n: map<int, AddrInfo>, bucket: set<int>, nNow: int, d: nat, id: int)
    requires forall y :: y in bucket ==> y in m && y in n && n[y] == m[y]
    requires GivesWay(net, n, bucket, nNow, d, id)
    ensures GivesWay(net, m, bucket, nNow, d, id)
  {
  }

  /** If some entry of the bucket is terrible, the one that makes room is the first such. */
  lemma TerribleVictim(t: Tables, addr: Address, source: NetAddr, nTimePenalty: int, nNow: int, d: nat, u: Tables,
                       victim: int, x: int, y: int)
    requires t.Valid({}) && HasShape(t) && Added(t, addr, source, nTimePenalty, nNow, d, u, victim)
    requires var b := BucketFor(t, addr, source); x in t.vvNew[b] && x !in u.vvNew[b] && y in t.vvNew[b]
    ensures |t.vvNew[BucketFor(t, addr, source)]| == 64 && x in t.mapInfo && y in t.mapInfo
    ensures IsTerrible(t.mapInfo[y], nNow) ==> IsTerrible(t.mapInfo[x], nNow) && x <= y
  {
    hide Added, Tables.Valid, IsTerrible, OldestOfFour;
    LeftAsVictim(t, addr, source, nTimePenalty, nNow, d, u, victim, x);
  }

  /** If none is, it is the one seen least recently of those at four random places, the first such in id order. */
  lemma OldestVictim(t: Tables, addr: Address, source: NetAddr, nTimePenalty: int, nNow: int, d: nat, u: Tables,
                     victim: int, x: int, order: seq<int>)
    returns (j: nat, next: nat)
    requires t.Valid({}) && HasShape(t) && Added(t, addr, source, nTimePenalty, nNow, d, u, victim)
    requires var b := BucketFor(t, addr, source); x in t.vvNew[b] && x !in u.vvNew[b]
    requires forall y :: y in t.vvNew[BucketFor(t, addr, source)] && y in t.mapInfo ==> !IsTerrible(t.mapInfo[y], nNow)
    requires order == Ascending.Sequence(t.vvNew[BucketFor(t, addr, source)])
    ensures next == if addr.service.ip in t.mapAddr then d + 1 else d
    ensures |order| == 64 && j < 4 && x == DrawnEntry(t.net, order, next, j)
    ensures forall k :: 0 <= k < 4 ==>
      var y := DrawnEntry(t.net, order, next, k);
      && x in t.mapInfo && y in t.mapInfo && t.mapInfo[x].nTime <= t.mapInfo[y].nTime
      && (y < x ==> t.mapInfo[x].nTime < t.mapInfo[y].nTime)
  {
    hide Added, Tables.Valid, IsTerrible, FirstTerribleOf, OldestOfFour;
    LeftAsVictim(t, addr, source, nTimePenalty, nNow, d, u, victim, x);
    var bucket := t.vvNew[BucketFor(t, addr, source)];
    NotTerrible(t.mapInfo, bucket, nNow, x);
    SequenceSize(bucket);
    next := ChoiceDraw(t, addr, d);
    j := OldestDrawn(t.net, t.mapInfo, bucket, next, x, order);
  }

  /** The entry at the place that draw number k, counted from d, gives in a full bucket. */
  function DrawnEntry(net: Net, order: seq<int>, d: nat, k: nat): int
    requires |order| == 64
  {
    order[net.rand(d + k) % 64]
  }

  lemma NotTerrible(m: map<int, AddrInfo>, bucket: set<int>, nNow: int, x: int)
    requires x in bucket && (forall y :: y in bucket && y in m ==> !IsTerrible(m[y], nNow))
    ensures !FirstTerribleOf(m, bucket, nNow, x)
  {
  }

  lemma SequenceSize(bucket: set<int>)
    ensures |Ascending.Sequence(bucket)| == |bucket|
  {
  }

  lemma OldestDrawn(net: Net, m: map<int, AddrInfo>, bucket: set<int>, d: nat, x: int, order: seq<int>)
    returns (j: nat)
    requires |bucket| == |order| == 64 && OldestOfFour(m, bucket, FourPlaces(net, d, 64), x)
    requires order == Ascending.Sequence(bucket)
    ensures j < 4 && x == DrawnEntry(net, order, d, j)
    ensures forall k :: 0 <= k < 4 ==>
      var y := DrawnEntry(net, order, d, k);
      && x in m && y in m && m[x].nTime <= m[y].nTime && (y < x ==> m[x].nTime < m[y].nTime)
  {
    hide Ascending.Sequence;
    var n := FourPlaces(net, d, 64);
    assert forall k :: 0 <= k < 4 ==> order[n[k]] == DrawnEntry(net, order, d, k) by {
      assert n[0] == net.rand(d) % 64 && n[1] == net.rand(d + 1) % 64;
      assert n[2] == net.rand(d + 2) % 64 && n[3] == net.rand(d + 3) % 64;
    }
    hide FourPlaces, DrawnEntry;
    var i: int :| 0 <= i < 4 && 0 <= n[i] < 64 && x == order[n[i]];
    j := i;
  }

  /** Adding an address loses at most one entry, a new one with a single reference, out of a full bucket. */
  lemma OneGone(t: Tables, addr: Address, source: NetAddr, nTimePenalty: int, nNow: int, d: nat, u: Tables, victim: int,
                x: int, y: int)
    requires t.Valid({}) && HasShape(t) && Added(t, addr, source, nTimePenalty, nNow, d, u, victim)
    requires x in t.mapInfo && x !in u.mapInfo && y in t.mapInfo && y !in u.mapInfo
    ensures x == y && !t.mapInfo[x].fInTried && t.mapInfo[x].nRefCount == 1
    ensures var b := BucketFor(t, addr, source); x in t.vvNew[b] && |t.vvNew[b]| == 64
  {
    AddedFacts(t, addr, source, nTimePenalty, nNow, d, u, victim);
    hide Added, Tables.Valid;
  }

  // ----- a known entry heard of again

  /** A known entry enters the bucket exactly if it may grow and its draw, one of 2^nRefCount, is zero. */
  lemma KnownEnters(t: Tables, addr: Address, source: NetAddr, nTimePenalty: int, nNow: int, d: nat, u: Tables,
                    victim: int)
    requires t.Valid({}) && HasShape(t) && Added(t, addr, source, nTimePenalty, nNow, d, u, victim)
    requires t.net.isRoutable(addr.service.ip) && addr.service.ip in t.mapAddr
    ensures var id, b := t.mapAddr[addr.service.ip], BucketFor(t, addr, source);
      && id in t.mapInfo && b < |u.vvNew|
      && (id in u.vvNew[b] <==>
          (id in t.vvNew[b] ||
           (MayGrow(Heard(t.mapInfo[id], addr, nTimePenalty, nNow), addr) && t.mapInfo[id].nRefCount >= 0 &&
            t.net.rand(d) % Pow2(t.mapInfo[id].nRefCount) == 0)))
  {
    hide Tables.RandomOk, Tables.NewOk, Tables.TriedOk, Tables.CountsOk, Tables.SizesOk, GivesWay, Heard, MayGrow;
    var b := BucketFor(t, addr, source);
    var id := t.mapAddr[addr.service.ip];
    var s := Touch(t, id, Heard(t.mapInfo[id], addr, nTimePenalty, nNow));
    HeardKeeps(t.mapInfo[id], addr, nTimePenalty, nNow);
    InBucket(t, b, {});
    if u != s && |t.vvNew[b]| == 64 { DropRefFacts(Raise(s, id), b, victim); }
  }

  lemma HeardKeeps(info: AddrInfo, addr: Address, nTimePenalty: int, nNow: int)
    ensures Heard(info, addr, nTimePenalty, nNow).nRefCount == info.nRefCount
  {
  }

  // ----- a tried bucket

  /** The draws for the first four places of a full tried bucket. */
  function FourDraws(net: Net, d: nat): (draws: seq<int>)
    ensures |draws| == 4 && forall i :: 0 <= i < 4 ==> i <= draws[i] < 64
  {
    [net.rand(d) % 64, 1 + net.rand(d + 1) % 63, 2 + net.rand(d + 2) % 62, 3 + net.rand(d + 3) % 61]
  }

  /** A tried entry is demoted only for one that a full bucket has no room for, and it is the one at the draw of the
      place that holds the least recent success after the draws. The first draw chose the new bucket. */
  lemma TriedVictim(t: Tables, addr: Service, nTime: int, d: nat, u: Tables, x: int) returns (place: nat)
    requires t.Valid({}) && HasShape(t) && MarkedGood(t, addr, nTime, d, u)
    requires x in t.mapInfo && t.mapInfo[x].fInTried && x in u.mapInfo && !u.mapInfo[x].fInTried
    ensures Known(t, addr) && place < 4
    ensures var v := t.vvTried[t.net.TriedBucket(t.nKey, addr)];
      |v| == 64 && x == Drawn(v, FourDraws(t.net, d + 1), 4)[FourDraws(t.net, d + 1)[place]]
    ensures var w := Drawn(t.vvTried[t.net.TriedBucket(t.nKey, addr)], FourDraws(t.net, d + 1), 4);
      forall i :: 0 <= i < 4 ==>
        && w[i] in t.mapInfo && w[place] in t.mapInfo
        && t.mapInfo[w[place]].nLastSuccess <= t.mapInfo[w[i]].nLastSuccess
        && (i < place ==> t.mapInfo[w[place]].nLastSuccess < t.mapInfo[w[i]].nLastSuccess)
  {
    hide Tables.Valid, Drawn, FourDraws, MarkedGood, Tables.AddrOk;
    var w, pos, s;
    w, pos, s := Demoted(t, addr, nTime, d, u, x);
    var v := t.vvTried[t.net.TriedBucket(t.nKey, addr)];
    place := FullPicks(t.net, s.mapInfo, v, d + 1, w, pos);
    forall i | 0 <= i < 4
      ensures w[i] in t.mapInfo && t.mapInfo[w[i]].nLastSuccess == s.mapInfo[w[i]].nLastSuccess {
      var y := w[i];
      assert y in v;
    }
  }

  /** The demoted entry goes to the new bucket of its own source, or, if that is full without the promoted one, to the
      first bucket that held the latter, counting from the one drawn and around the end. */
  lemma VictimHome(t: Tables, addr: Service, nTime: int, d: nat, u: Tables, x: int) returns (origin: nat)
    requires t.Valid({}) && HasShape(t) && MarkedGood(t, addr, nTime, d, u)
    requires x in t.mapInfo && t.mapInfo[x].fInTried && x in u.mapInfo && !u.mapInfo[x].fInTried
    ensures Known(t, addr) && origin < 256 && t.mapAddr[addr.ip] in t.vvNew[origin] && |u.vvNew| == 256
    ensures var start := t.net.rand(d) % 256;
      forall b :: 0 <= b < 256 && t.mapAddr[addr.ip] in t.vvNew[b] ==>
        if start <= origin then b < start || b >= origin else origin <= b < start
    ensures var id, own := t.mapAddr[addr.ip], t.net.NewBucket(t.nKey, t.mapInfo[x].service.ip, t.mapInfo[x].source);
      x in u.vvNew[if |t.vvNew[own] - {id}| < 64 then own else origin]
  {
    hide Tables.RandomOk, Tables.NewOk, Tables.TriedOk, Tables.CountsOk, Tables.SizesOk, Selected, Shuffled, Moved;
    var id := t.mapAddr[addr.ip];
    var start, next := t.net.Rand(d, NEW_BUCKET_COUNT), d + 1;
    var s := Touch(t, id, GoodInfo(t.mapInfo[id], nTime));
    TouchValid(t, id, GoodInfo(t.mapInfo[id], nTime));
    ValidSizes(t);
    var w, pos, dest: nat;
    origin, w, pos, dest :|
      FirstFrom(s.vvNew, id, start, origin) && Moved(s, id, origin, next, w, pos, dest, u);
    TriedShape(t);
    hide Tables.Valid;
    MovedDemotes(s, id, origin, next, w, pos, dest, u, x);
    MovedHome(s, id, origin, next, w, pos, dest, u);
  }

  /** A full bucket has demoted x for the service marked as good. */
  lemma Demoted(t: Tables, addr: Service, nTime: int, d: nat, u: Tables, x: int)
    returns (w: seq<int>, pos: nat, s: Tables)
    requires t.Valid({}) && HasShape(t) && MarkedGood(t, addr, nTime, d, u)
    requires x in t.mapInfo && t.mapInfo[x].fInTried && x in u.mapInfo && !u.mapInfo[x].fInTried
    ensures Known(t, addr)
    ensures var v := t.vvTried[t.net.TriedBucket(t.nKey, addr)];
      && |v| == 64 && Shuffled(v, w) && pos < |w| && x == w[pos] && Selected(t.net, s.mapInfo, v, d + 1, w, pos)
      && forall y :: y in v ==> y in t.mapInfo && y in s.mapInfo && s.mapInfo[y] == t.mapInfo[y]
  {
    hide Tables.RandomOk, Tables.NewOk, Tables.TriedOk, Tables.CountsOk, Tables.SizesOk, Selected, Shuffled, Moved;
    var id := t.mapAddr[addr.ip];
    var start, next := t.net.Rand(d, NEW_BUCKET_COUNT), d + 1;
    s := Touch(t, id, GoodInfo(t.mapInfo[id], nTime));
    TriedShape(t);
    ValidSizes(t);
    var origin: nat, pos', dest: nat;
    origin, w, pos', dest :|
      FirstFrom(s.vvNew, id, start, origin) && Moved(s, id, origin, next, w, pos', dest, u);
    MovedDemotes(s, id, origin, next, w, pos', dest, u, x);
    pos := pos';
  }

  lemma ValidSizes(t: Tables)
    requires t.Valid({})
    ensures forall k :: 0 <= k < |t.vvTried| ==> |t.vvTried[k]| <= 64
  {
  }

  lemma MovedDemotes(t: Tables, id: int, origin: nat, d: nat, w: seq<int>, pos: int, dest: nat, u: Tables, x: int)
    requires HasShape(t) && id in t.mapInfo && origin < |t.vvNew| && Moved(t, id, origin, d, w, pos, dest, u)
    requires x in t.mapInfo && t.mapInfo[x].fInTried && x in u.mapInfo && !u.mapInfo[x].fInTried
    ensures var v := t.vvTried[t.net.TriedBucket(t.nKey, t.mapInfo[id].service)];
      |v| >= 64 && Shuffled(v, w) && 0 <= pos < |w| && x == w[pos] && Selected(t.net, t.mapInfo, v, d, w, pos)
    ensures |u.vvNew| == |t.vvNew|
  {
    hide Selected, Shuffled;
  }

  lemma FullPicks(net: Net, m: map<int, AddrInfo>, v: seq<int>, d: nat, w: seq<int>, pos: nat) returns (place: nat)
    requires |v| == 64 && Selected(net, m, v, d, w, pos)
    ensures w == Drawn(v, FourDraws(net, d), 4) && |w| == 64 && place < 4 && pos == FourDraws(net, d)[place]
    ensures forall i :: 0 <= i < 4 ==>
      && w[i] in m && w[place] in m && m[w[place]].nLastSuccess <= m[w[i]].nLastSuccess
      && (i < place ==> m[w[place]].nLastSuccess < m[w[i]].nLastSuccess)
  {
    DrawsAgree(net, d, v);
    hide FourDraws, PlacesDrawn, Drawn;
    var p :| Picks(m, v, w, pos, FourDraws(net, d), p);
    place := p;
  }

  lemma DrawsAgree(net: Net, d: nat, v: seq<int>)
    requires |v| == 64
    ensures PlacesDrawn(net, d, |v|, Inspected(v)) == FourDraws(net, d) && Inspected(v) == 4
  {
    var p := PlacesDrawn(net, d, 64, 4);
    assert p[0] == net.Rand(d, 64) && p[1] == 1 + net.Rand(d + 1, 63);
    assert p[2] == 2 + net.Rand(d + 2, 62) && p[3] == 3 + net.Rand(d + 3, 61);
  }
}
