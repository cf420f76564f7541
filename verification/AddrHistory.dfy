/** Where the entries of the address manager come from, over whole runs with restarts (src/addrman.cpp). */
module AddrHistory {

  import opened AddrTables
  import opened AddrMoves
  import opened AddrManager
  import opened AddrDisk

  ghost predicate Listed(t: Tables, s: Service) {
    exists id :: id in t.mapInfo && t.mapInfo[id].service == s
  }

  ghost predicate Tried(t: Tables, s: Service) {
    exists id :: id in t.mapInfo && t.mapInfo[id].service == s && t.mapInfo[id].fInTried
  }

  /** The event announces the service, which is routable. */
  predicate Announces(net: Net, event: Event, s: Service) {
    event.Do? && event.op.OpAdd? && event.op.addr.service == s && net.isRoutable(s.ip)
  }

  /** The event marks the service as good. */
  predicate Praises(event: Event, s: Service) {
    event.Do? && event.op.OpGood? && event.op.service == s
  }

  // ----- one event

  /** An entry of u that t has as well, and that was tried there if it is in u. */
  ghost predicate Same(t: Tables, u: Tables, x: int) {
    && x in t.mapInfo && x in u.mapInfo && u.mapInfo[x].service == t.mapInfo[x].service
    && (u.mapInfo[x].fInTried ==> t.mapInfo[x].fInTried)
  }

  lemma SettledSame(t: Tables, b: nat, id: int, nNow: int, d: nat, victim: int, u: Tables)
    requires b < |t.vvNew| && Settled(t, b, id, nNow, d, victim, u)
    ensures u.net == t.net && forall x :: x in u.mapInfo ==> Same(t, u, x)
  {
    hide Tables.RandomOk, Tables.Forget, GivesWay;
    if |t.vvNew[b]| == NEW_BUCKET_SIZE { DropRefSame(t, b, victim); }
  }

  lemma DropRefSame(t: Tables, b: nat, victim: int)
    requires t.RandomOk() && b < |t.vvNew| && victim in t.mapInfo
    ensures t.DropRef(b, victim).net == t.net
    ensures forall x :: x in t.DropRef(b, victim).mapInfo ==> Same(t, t.DropRef(b, victim), x)
  {
  }

  /** What an operation leaves behind: the entries that were there, but for a new one for a routable address announced
      and a promoted one marked as good. */
  ghost predicate From(t: Tables, op: Op, u: Tables, x: int) {
    || Same(t, u, x)
    || (x in u.mapInfo && Announces(t.net, Do(op), u.mapInfo[x].service) && !u.mapInfo[x].fInTried)
    || (x in u.mapInfo && Praises(Do(op), u.mapInfo[x].service) && Listed(t, u.mapInfo[x].service))
  }

  ghost predicate AllFrom(t: Tables, op: Op, u: Tables) {
    u.net == t.net && forall x :: x in u.mapInfo ==> From(t, op, u, x)
  }

  lemma AddedFrom(t: Tables, op: Op, d: nat, u: Tables, victim: int)
    requires t.Valid({}) && HasShape(t) && op.OpAdd?
    requires Added(t, op.addr, op.source, op.nTimePenalty, op.nNow, d, u, victim)
    ensures AllFrom(t, op, u)
  {
    hide Tables.RandomOk, Tables.NewOk, Tables.TriedOk, Tables.CountsOk, Settled, Heard;
    var ip := op.addr.service.ip;
    if t.net.isRoutable(ip) && ip in t.mapAddr {
      HeardFrom(t, op, d, u, victim);
    } else if t.net.isRoutable(ip) {
      var r := Fresh(t, NewInfo(op.addr, op.source, op.nTimePenalty));
      SettledSame(r, t.net.NewBucket(t.nKey, ip, op.source), t.nIdCount, op.nNow, d, victim, u);
      assert forall x :: x in r.mapInfo ==> x in t.mapInfo || x == t.nIdCount;
    }
  }

  lemma HeardFrom(t: Tables, op: Op, d: nat, u: Tables, victim: int)
    requires t.Valid({}) && HasShape(t) && op.OpAdd?
    requires Added(t, op.addr, op.source, op.nTimePenalty, op.nNow, d, u, victim)
    requires t.net.isRoutable(op.addr.service.ip) && op.addr.service.ip in t.mapAddr
    ensures u.net == t.net && forall x :: x in u.mapInfo ==> Same(t, u, x)
  {
    hide Tables.RandomOk, Tables.NewOk, Tables.TriedOk, Tables.CountsOk, Settled;
    var id := t.mapAddr[op.addr.service.ip];
    var s := Touch(t, id, Heard(t.mapInfo[id], op.addr, op.nTimePenalty, op.nNow));
    if u != s {
      SettledSame(Raise(s, id), t.net.NewBucket(t.nKey, op.addr.service.ip, op.source), id, op.nNow, d + 1, victim, u);
    }
  }

  lemma GoodFrom(t: Tables, op: Op, d: nat, u: Tables)
    requires t.Valid({}) && HasShape(t) && op.OpGood? && MarkedGood(t, op.service, op.nTime, d, u)
    ensures AllFrom(t, op, u)
  {
    hide Tables.RandomOk, Tables.NewOk, Tables.TriedOk, Tables.CountsOk, Shuffled, Strip;
  }

  /** A known service that is marked as good is tried. */
  lemma PraisedIsTried(t: Tables, op: Op, u: Tables)
    requires t.Valid({}) && Stepped(t, op, u) && op.OpGood? && Listed(t, op.service)
    ensures Tried(u, op.service)
  {
    hide Tables.RandomOk, Tables.NewOk, Tables.TriedOk, Tables.CountsOk, Shuffled, Strip;
    var x := t.mapAddr[op.service.ip];
    assert x in t.mapInfo && t.mapInfo[x].service == op.service;
    assert x in u.mapInfo && u.mapInfo[x].service == op.service && u.mapInfo[x].fInTried;
  }

  lemma SteppedFrom(t: Tables, op: Op, u: Tables)
    requires t.Valid({}) && Stepped(t, op, u)
    ensures AllFrom(t, op, u)
  {
    hide Tables.RandomOk, Tables.AddrOk, Tables.NewOk, Tables.TriedOk, Tables.CountsOk, Added, MarkedGood;
    ShapeOfValid(t);
    var d: nat :| SteppedAt(t, op, d, u);
    match op
    case OpAdd(addr, source, nTimePenalty, nNow) =>
      var victim :| Added(t, addr, source, nTimePenalty, nNow, d, u, victim);
      AddedFrom(t, op, d, u, victim);
    case OpGood(service, nTime) => GoodFrom(t, op, d, u);
    case _ =>
  }

  /** Whatever is listed or tried after an event was so before it, unless the event is about it. */
  lemma FollowedFrom(t: Tables, event: Event, u: Tables, s: Service)
    requires t.Valid({}) && u.Valid({}) && Followed(t, event, u)
    ensures u.net == t.net
    ensures Listed(u, s) ==> Listed(t, s) || Announces(t.net, event, s)
    ensures Tried(u, s) ==> Tried(t, s) || Praises(event, s)
  {
    hide Tables.Valid, Stepped, SameView, Untried;
    match event
    case Restart => ReloadFrom(t, u, s);
    case Do(op) => SteppedFrom(t, op, u);
  }

  lemma ReloadFrom(t: Tables, u: Tables, s: Service)
    requires t.Valid({}) && u.Valid({}) && SameView(t, u)
    ensures Listed(u, s) ==> Listed(t, s)
    ensures Tried(u, s) ==> Tried(t, s)
  {
    hide Tables.RandomOk, Tables.NewOk, Tables.TriedOk, Tables.CountsOk;
    forall x | x in u.mapInfo && u.mapInfo[x].service == s
      ensures Listed(t, s) && (u.mapInfo[x].fInTried ==> Tried(t, s))
    {
      assert SameEntry(t, u, s.ip);
      var y := t.mapAddr[s.ip];
      assert Persist(t.mapInfo[y]).service == Persist(u.mapInfo[x]).service;
      assert t.mapInfo[y].fInTried == u.mapInfo[x].fInTried;
    }
  }

  // ----- whole runs

  /** Every service in the manager was announced, and is routable. */
  lemma {:induction false} ListedWasAnnounced(net: Net, nKey: seq<bv8>, events: seq<Event>, states: seq<Tables>, n: nat,
                                              s: Service)
    returns (i: nat)
    requires Chronicle(net, nKey, events, states) && n <= |events| && Listed(states[n], s)
    ensures i < n && Announces(net, events[i], s)
  {
    hide Tables.Valid, Followed, Listed, Announces;
    NetKept(net, nKey, events, states, n);
    if n == 0 {
      NothingListed(net, nKey, s);
    } else {
      NetKept(net, nKey, events, states, n - 1);
      FollowedFrom(states[n - 1], events[n - 1], states[n], s);
      if Listed(states[n - 1], s) {
        i := ListedWasAnnounced(net, nKey, events, states, n - 1, s);
      } else {
        i := n - 1;
      }
    }
  }

  /** Every service in a tried bucket was marked as good. */
  lemma {:induction false} TriedWasGood(net: Net, nKey: seq<bv8>, events: seq<Event>, states: seq<Tables>, n: nat,
                                        s: Service)
    returns (i: nat)
    requires Chronicle(net, nKey, events, states) && n <= |events| && Tried(states[n], s)
    ensures i < n && Praises(events[i], s)
  {
    hide Tables.Valid, Followed, Tried, Praises;
    if n == 0 {
      NothingListed(net, nKey, s);
    } else {
      FollowedFrom(states[n - 1], events[n - 1], states[n], s);
      if Tried(states[n - 1], s) {
        i := TriedWasGood(net, nKey, events, states, n - 1, s);
      } else {
        i := n - 1;
      }
    }
  }

  lemma {:induction false} NetKept(net: Net, nKey: seq<bv8>, events: seq<Event>, states: seq<Tables>, n: nat)
    requires Chronicle(net, nKey, events, states) && n <= |events|
    ensures states[n].net == net
  {
    hide Tables.Valid, Followed;
    if n > 0 {
      NetKept(net, nKey, events, states, n - 1);
      FollowedFrom(states[n - 1], events[n - 1], states[n], Service(0, 0));
    }
  }

  lemma NothingListed(net: Net, nKey: seq<bv8>, s: Service)
    ensures !Listed(NoPeers(net, nKey), s) && !Tried(NoPeers(net, nKey), s)
  {
  }
}
