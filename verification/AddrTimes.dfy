/** What the times and attempts of an entry mean for it (src/addrman.cpp). */
module AddrTimes {

  import opened AddrTables
  import opened AddrMoves

  /** In figures: an entry tried within the last minute stays; else one that is more than ten minutes ahead, unseen for
      thirty days, three times tried without a success, or ten times tried with no success in a week, may go. */
  lemma TerribleInFigures(info: AddrInfo, nNow: int)
    ensures IsTerrible(info, nNow) <==>
      && (info.nLastTry == 0 || nNow - info.nLastTry > 60)
      && (info.nTime - nNow > 600 || info.nTime == 0 || nNow - info.nTime > 2_592_000
          || (info.nLastSuccess == 0 && info.nAttempts >= 3)
          || (nNow - info.nLastSuccess > 604_800 && info.nAttempts >= 10))
  {
  }

  /** Time keeps a forgotten entry terrible: one that is not ahead of the clock stays so until it is heard of, tried or
      reached. */
  lemma TerribleStays(info: AddrInfo, nNow: int, later: int)
    requires IsTerrible(info, nNow) && nNow <= later && info.nTime <= nNow + 600
    ensures IsTerrible(info, later)
  {
  }

  /** An entry just tried is kept for a minute, whatever its record. */
  lemma TriedIsKept(t: Tables, addr: Service, nTime: int, nNow: int)
    requires Known(t, addr) && nTime != 0 && nNow <= nTime + 60
    ensures var id := t.mapAddr[addr.ip];
      id in Attempted(t, addr, nTime).mapInfo && !IsTerrible(Attempted(t, addr, nTime).mapInfo[id], nNow)
  {
  }

  /** A success forgives all failures before it: with no attempt since, the entry is kept for thirty days. */
  lemma SuccessForgives(info: AddrInfo, nTime: int, nNow: int)
    requires 0 < nTime < 0x1_0000_0000 && nTime - 600 <= nNow <= nTime + 2_592_000
    ensures !IsTerrible(GoodInfo(info, nTime), nNow)
    ensures GoodInfo(info, nTime) == info.(nAttempts := 0, nLastSuccess := nTime, nLastTry := nTime, nTime := nTime)
  {
  }

  /** Three failed attempts are too many for an entry that never succeeded, and two are not if it was seen lately. */
  lemma AttemptsCount(t: Tables, addr: Service, nTime: int, nNow: int)
    requires Known(t, addr) && nTime + 60 < nNow
    requires var info := t.mapInfo[t.mapAddr[addr.ip]];
      info.nLastSuccess == 0 && 0 < info.nTime && nNow - 2_592_000 <= info.nTime <= nNow + 600
    ensures var id := t.mapAddr[addr.ip];
      id in Attempted(t, addr, nTime).mapInfo &&
      (IsTerrible(Attempted(t, addr, nTime).mapInfo[id], nNow) <==> t.mapInfo[id].nAttempts + 1 >= 3)
  {
  }

  /** Hearing of an entry only adds services, and moves its time only forward: to the time announced less the penalty,
      once that is later by more than an hour for an address seen within a day, and by more than a day for any other. */
  lemma HeardMovesOn(info: AddrInfo, addr: Address, nTimePenalty: int, nNow: int)
    requires nTimePenalty >= 0
    ensures var h := Heard(info, addr, nTimePenalty, nNow);
      && h == info.(nTime := h.nTime, nServices := info.nServices + addr.nServices)
      && info.nTime <= h.nTime
      && (h.nTime == info.nTime || h.nTime == (if addr.nTime <= nTimePenalty then 0 else addr.nTime - nTimePenalty))
      && (info.nTime > 0 ==>
            (h.nTime > info.nTime <==>
              addr.nTime - nTimePenalty - info.nTime > if nNow - addr.nTime < 86_400 then 3_600 else 86_400))
  {
  }

  /** A new entry has the time announced less the penalty, and a clean record. */
  lemma NewInfoClean(addr: Address, source: NetAddr, nTimePenalty: int, nNow: int)
    requires nTimePenalty >= 0
    ensures var info := NewInfo(addr, source, nTimePenalty);
      && info.service == addr.service && info.source == source && info.nServices == addr.nServices
      && info.nTime == (if addr.nTime <= nTimePenalty then 0 else addr.nTime - nTimePenalty)
      && info.nAttempts == 0 && info.nLastTry == 0 && info.nLastSuccess == 0 && !info.fInTried
      && (IsTerrible(info, nNow) <==> info.nTime == 0 || info.nTime - nNow > 600 || nNow - info.nTime > 2_592_000)
  {
  }

  /** A known entry that is not tried asks for one more bucket only with news: a later time than its own, and fewer than
      four references. */
  lemma GrowsWithNews(info: AddrInfo, addr: Address)
    requires 0 <= info.nRefCount <= 4
    ensures MayGrow(info, addr) <==> addr.nTime > 0 && (info.nTime == 0 || info.nTime < addr.nTime)
                                     && !info.fInTried && info.nRefCount < 4
  {
  }

  /** A connection moves the time only if that is more than twenty minutes old. */
  lemma ReachedMovesOn(t: Tables, addr: Service, nTime: int)
    requires Known(t, addr) && 0 <= nTime < 0x1_0000_0000
    ensures var id := t.mapAddr[addr.ip];
      id in Reached(t, addr, nTime).mapInfo &&
      Reached(t, addr, nTime).mapInfo[id].nTime == if nTime - t.mapInfo[id].nTime > 1_200 then nTime
        else t.mapInfo[id].nTime
  {
  }
}
