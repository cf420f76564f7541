/** The turns of the main loop of CreateNewBlock: which transaction each one takes, in which order, and what becomes of
    it (src/miner.cpp). */
module BlockSchedule {

  import opened BlockAssembler

  /** One turn: the transaction taken off the queue, the order in force, and whether it was included. */
  datatype Turn = Turn(tx: Hash, byFee: bool, included: bool)

  ghost predicate AllTurnsEligible(w: World, trace: seq<Turn>) {
    forall k :: 0 <= k < |trace| ==> Eligible(w, trace[k].tx)
  }

  /** The transactions taken, in the order of the turns. */
  function Settled(trace: seq<Turn>): (s: seq<Hash>)
    ensures |s| == |trace| && forall k :: 0 <= k < |trace| ==> s[k] == trace[k].tx
  {
    seq(|trace|, k requires 0 <= k < |trace| => trace[k].tx)
  }

  function Included(trace: seq<Turn>): seq<Hash> {
    if trace == [] then []
    else
      var n := |trace| - 1;
      Included(trace[..n]) + if trace[n].included then [trace[n].tx] else []
  }

  function Refused(trace: seq<Turn>): seq<Hash> {
    if trace == [] then []
    else
      var n := |trace| - 1;
      Refused(trace[..n]) + if trace[n].included then [] else [trace[n].tx]
  }

  lemma {:induction false} IncludedEligible(w: World, trace: seq<Turn>)
    requires AllTurnsEligible(w, trace)
    ensures AllEligible(w, Included(trace))
  {
    hide Eligible;
    if trace != [] { IncludedEligible(w, trace[..|trace| - 1]); }
  }

  /** The order after some turns: by fee once the priority phase is over, which happens only at the start, without any
      size set aside for it, or at a transaction that fits and ends it. */
  ghost predicate OrderAfter(w: World, trace: seq<Turn>)
    requires Closed(w) && AllTurnsEligible(w, trace)
  {
    if trace == [] then PrioritySize(w) <= 0
    else
      var n := |trace| - 1;
      var past, last := trace[..n], trace[n];
      IncludedEligible(w, past);
      last.byFee || (Fits(w, Included(past), last.tx, last.byFee) && EndsPriority(w, Included(past), last.tx))
  }

  /** A candidate that has not had its turn although all its parents in the pool are included. */
  ghost predicate Contender(w: World, past: seq<Turn>, h: Hash) {
    Eligible(w, h) && Parents(w, h) <= SetOf(Included(past)) && h !in Settled(past)
  }

  ghost function Ranked(w: World, h: Hash): TxPriority
    requires Closed(w) && Eligible(w, h)
  {
    TxPriority(Priority(w, h), FeePerKb(w, h), h)
  }

  /** No contender beats h. */
  ghost predicate Unbeaten(w: World, past: seq<Turn>, byFee: bool, h: Hash)
    requires Closed(w) && Eligible(w, h)
  {
    forall x :: Contender(w, past, x) ==> !Less(byFee, Ranked(w, h), Ranked(w, x))
  }

  /** A turn takes a contender that no other beats under the order in force, and includes it exactly if it passes. */
  ghost predicate TurnOk(w: World, past: seq<Turn>, turn: Turn)
    requires Closed(w) && AllTurnsEligible(w, past)
  {
    IncludedEligible(w, past);
    && Contender(w, past, turn.tx)
    && turn.byFee == OrderAfter(w, past)
    && Unbeaten(w, past, turn.byFee, turn.tx)
    && (turn.included <==> Admissible(w, Included(past), turn.tx, turn.byFee))
  }

  /** The turns of a run of the loop. */
  ghost predicate Played(w: World, trace: seq<Turn>)
    requires Closed(w)
  {
    AllTurnsEligible(w, trace) && forall k :: 0 <= k < |trace| ==> TurnOk(w, trace[..k], trace[k])
  }

  lemma PlayedNext(w: World, trace: seq<Turn>, turn: Turn)
    requires Closed(w) && Played(w, trace) && Eligible(w, turn.tx) && TurnOk(w, trace, turn)
    ensures Played(w, trace + [turn])
  {
    hide Closed, TurnOk, Eligible;
    var t := trace + [turn];
    assert t[..|trace|] == trace;
    forall k | 0 <= k < |t| ensures TurnOk(w, t[..k], t[k]) {
      if k < |trace| { assert t[..k] == trace[..k]; }
    }
  }

  lemma TurnAppended(trace: seq<Turn>, turn: Turn)
    ensures Settled(trace + [turn]) == Settled(trace) + [turn.tx]
    ensures Included(trace + [turn]) == Included(trace) + if turn.included then [turn.tx] else []
    ensures multiset(Settled(trace + [turn])) == multiset(Settled(trace)) + multiset{turn.tx}
  {
    assert (trace + [turn])[..|trace|] == trace;
  }

  lemma OrderNext(w: World, trace: seq<Turn>, turn: Turn)
    requires Closed(w) && AllTurnsEligible(w, trace) && Eligible(w, turn.tx)
    ensures AllTurnsEligible(w, trace + [turn]) && AllEligible(w, Included(trace))
    ensures OrderAfter(w, trace + [turn]) <==>
      turn.byFee || (Fits(w, Included(trace), turn.tx, turn.byFee) && EndsPriority(w, Included(trace), turn.tx))
  {
    hide Closed, Eligible, Fits, EndsPriority, Included;
    IncludedEligible(w, trace);
    assert (trace + [turn])[..|trace|] == trace;
  }

  // ---------------------------------------------------------------- what holds of every run

  lemma PrefixPlayed(w: World, trace: seq<Turn>, k: nat)
    requires Closed(w) && Played(w, trace) && k <= |trace|
    ensures Played(w, trace[..k])
  {
    hide Closed, TurnOk, Eligible;
    forall j | 0 <= j < k ensures TurnOk(w, trace[..k][..j], trace[..k][j]) { assert trace[..k][..j] == trace[..j]; }
  }

  /** No transaction has two turns. */
  lemma TurnsDistinct(w: World, trace: seq<Turn>, j: nat, k: nat)
    requires Closed(w) && Played(w, trace) && j < k < |trace|
    ensures trace[j].tx != trace[k].tx
  {
    hide Closed, Eligible, OrderAfter, Unbeaten, Admissible, Included;
    assert TurnOk(w, trace[..k], trace[k]);
    assert Settled(trace[..k])[j] == trace[j].tx;
  }

  /** The order never goes back from fee to priority. */
  lemma {:induction false} OrderStays(w: World, trace: seq<Turn>, j: nat, k: nat)
    requires Closed(w) && Played(w, trace) && j < k < |trace|
    requires trace[j].byFee || OrderAfter(w, trace[..j + 1])
    ensures trace[k].byFee
    decreases k
  {
    hide Closed, Eligible, Unbeaten, Admissible, Included, Contender, Fits, EndsPriority;
    assert TurnOk(w, trace[..k], trace[k]);
    if j < k - 1 {
      OrderStays(w, trace, j, k - 1);
      assert trace[..k][k - 1] == trace[k - 1];
    } else {
      assert trace[..k][j] == trace[j];
    }
  }

  /** Every turn but the first finds the order that the turn before left. */
  lemma OrderChange(w: World, trace: seq<Turn>, k: nat)
    requires Closed(w) && Played(w, trace) && k < |trace|
    ensures k == 0 ==> (trace[0].byFee <==> PrioritySize(w) <= 0)
    ensures k > 0 ==>
      var past, last := trace[..k - 1], trace[k - 1];
      AllEligible(w, Included(past)) &&
      (trace[k].byFee <==>
        last.byFee || (Fits(w, Included(past), last.tx, false) && EndsPriority(w, Included(past), last.tx)))
  {
    hide Closed, Eligible, Unbeaten, Admissible, Included, Contender, Fits, EndsPriority;
    assert TurnOk(w, trace[..k], trace[k]);
    if k > 0 {
      IncludedEligible(w, trace[..k - 1]);
      assert trace[..k][..k - 1] == trace[..k - 1];
    }
  }

  /** The order at each turn, in figures: by fee once no size is set aside for priority, or once a transaction that
      fitted reached that size or had less than 57 600 000 satoshi-blocks for each byte. */
  lemma OrderInFigures(w: World, trace: seq<Turn>, k: nat)
    requires Closed(w) && Played(w, trace) && k < |trace|
    ensures k == 0 ==> (trace[0].byFee <==> PrioritySize(w) == 0)
    ensures k > 0 ==>
      var s, h := Included(trace[..k - 1]), trace[k - 1].tx;
      AllEligible(w, s) && Eligible(w, h) &&
      (trace[k].byFee <==>
        trace[k - 1].byFee
        || (BlockSize(w, s) + w.pool[h].size < MaxSize(w) && BlockSigOps(w, s) + w.pool[h].sigOps < 16_800
            && w.pool[h].nTime <= w.nAdjustedTime && (w.fProofOfStake ==> w.pool[h].nTime <= w.nCoinbaseTime)
            && (BlockSize(w, s) + w.pool[h].size >= PrioritySize(w) || Priority(w, h) < 57_600_000.0)))
  {
    hide Closed, TurnOk, Priority, FeePerKb, Included, MaxSize, PrioritySize, MinSize;
    OrderChange(w, trace, k);
  }

  /** What a transaction has to pass at its turn, in figures. */
  lemma IncludedExactly(w: World, trace: seq<Turn>, k: nat)
    requires Closed(w) && Played(w, trace) && k < |trace|
    ensures AllEligible(w, Included(trace[..k])) && Eligible(w, trace[k].tx)
    ensures var s, h := Included(trace[..k]), trace[k].tx;
      var tx := w.pool[h];
      trace[k].included <==>
        && BlockSize(w, s) + tx.size < MaxSize(w)
        && BlockSigOps(w, s) + tx.sigOps + w.p2sh(h, s) < 16_800
        && tx.nTime <= w.nAdjustedTime && (w.fProofOfStake ==> tx.nTime <= w.nCoinbaseTime)
        && (trace[k].byFee && FeePerKb(w, h) < w.nMinTxFee as real ==> BlockSize(w, s) + tx.size < MinSize(w))
        && w.fetch(h, s) && w.connect(h, s)
        && w.valueIn(h, s) - ValueOut(tx.vout) >= w.minFee(h, BlockSize(w, s))
  {
    hide Closed, OrderAfter, Unbeaten, FeePerKb, Included, MaxSize, MinSize, ValueOut;
    IncludedEligible(w, trace[..k]);
    assert TurnOk(w, trace[..k], trace[k]);
  }

  /** At the end of a run every final pool transaction that is neither coinbase nor coinstake has had its turn, if each
      of its inputs is on the chain or comes from a transaction of the block. */
  lemma EveryReadyHadTurn(w: World, trace: seq<Turn>, h: Hash)
    requires (forall x :: !Contender(w, trace, x)) && h in w.pool
    requires !w.pool[h].coinBase && !w.pool[h].coinStake && w.pool[h].final
    requires forall j :: 0 <= j < |w.pool[h].vin| ==>
      w.pool[h].vin[j] in w.chain || w.pool[h].vin[j].hash in Included(trace)
    ensures exists k :: 0 <= k < |trace| && trace[k].tx == h
  {
    hide Included, Parents, SetOf;
    ParentsAmong(w, h, Included(trace));
    assert !Contender(w, trace, h);
    assert h in Settled(trace);
    var k :| 0 <= k < |trace| && Settled(trace)[k] == h;
    assert trace[k].tx == h;
  }

  lemma ParentsAmong(w: World, h: Hash, s: seq<Hash>)
    requires h in w.pool && forall j :: 0 <= j < |w.pool[h].vin| ==>
      w.pool[h].vin[j] in w.chain || w.pool[h].vin[j].hash in s
    ensures Parents(w, h) <= SetOf(s)
  {
  }

  /** No transaction of a run is a coinbase, a coinstake or not final, and all come from the pool. */
  lemma TurnsFromPool(w: World, trace: seq<Turn>, k: nat)
    requires Closed(w) && Played(w, trace) && k < |trace|
    ensures trace[k].tx in w.pool
    ensures var tx := w.pool[trace[k].tx]; tx.final && !tx.coinBase && !tx.coinStake
  {
    hide Closed, TurnOk;
  }

  /** A turn by fee takes the highest fee rate there is, and a turn by priority the highest priority; the other one
      decides between equals. */
  lemma TurnTakesHighest(w: World, trace: seq<Turn>, k: nat, x: Hash)
    requires Closed(w) && Played(w, trace) && k < |trace| && Contender(w, trace[..k], x)
    ensures Eligible(w, x) && Eligible(w, trace[k].tx)
    ensures var h := trace[k].tx;
      if trace[k].byFee
      then FeePerKb(w, x) <= FeePerKb(w, h) && (FeePerKb(w, x) == FeePerKb(w, h) ==> Priority(w, x) <= Priority(w, h))
      else Priority(w, x) <= Priority(w, h) && (Priority(w, x) == Priority(w, h) ==> FeePerKb(w, x) <= FeePerKb(w, h))
  {
    hide Closed, Eligible, OrderAfter, Admissible, Priority, FeePerKb, Parents, Included, Settled, SetOf;
    assert TurnOk(w, trace[..k], trace[k]);
    assert !Less(trace[k].byFee, Ranked(w, trace[k].tx), Ranked(w, x));
  }

  /** The turn at which transaction i of the block was included. */
  lemma {:induction false} TurnOf(trace: seq<Turn>, i: nat) returns (k: nat)
    requires i < |Included(trace)|
    ensures k < |trace| && trace[k].included && trace[k].tx == Included(trace)[i]
    ensures Included(trace[..k]) == Included(trace)[..i] && Included(trace[..k + 1]) == Included(trace)[..i + 1]
    decreases |trace|
  {
    var n := |trace| - 1;
    var past := Included(trace[..n]);
    if i < |past| {
      k := TurnOf(trace[..n], i);
      assert trace[..n][..k] == trace[..k] && trace[..n][..k + 1] == trace[..k + 1];
    } else {
      k := n;
      assert trace[..n + 1] == trace;
    }
  }

  lemma {:induction false} IncludedGrows(trace: seq<Turn>, j: nat, k: nat)
    requires j <= k <= |trace|
    ensures |Included(trace[..j])| <= |Included(trace[..k])|
    decreases k
  {
    if j < k {
      assert trace[..k][..k - 1] == trace[..k - 1];
      IncludedGrows(trace, j, k - 1);
    }
  }

  lemma {:induction false} SplitCounts(trace: seq<Turn>)
    ensures multiset(Settled(trace)) == multiset(Included(trace)) + multiset(Refused(trace))
  {
    if trace != [] {
      var n := |trace| - 1;
      SplitCounts(trace[..n]);
      assert trace == trace[..n] + [trace[n]];
      TurnAppended(trace[..n], trace[n]);
    }
  }

  /** Whatever has parents in the pool comes after all of them. */
  lemma ParentsIncluded(w: World, trace: seq<Turn>)
    requires Closed(w) && Played(w, trace)
    ensures AllEligible(w, Included(trace)) && ParentsFirst(w, Included(trace))
  {
    hide Closed, TurnOk, Parents, SetOf, Included;
    IncludedEligible(w, trace);
    forall i | 0 <= i < |Included(trace)| ensures Parents(w, Included(trace)[i]) <= SetOf(Included(trace)[..i]) {
      ParentsAt(w, trace, i);
    }
  }

  lemma ParentsAt(w: World, trace: seq<Turn>, i: nat)
    requires Closed(w) && Played(w, trace) && i < |Included(trace)|
    ensures Included(trace)[i] in w.pool && Parents(w, Included(trace)[i]) <= SetOf(Included(trace)[..i])
  {
    hide Closed, OrderAfter, Unbeaten, Admissible, Parents, SetOf, Included, Settled;
    var k := TurnOf(trace, i);
    assert TurnOk(w, trace[..k], trace[k]);
  }

  /** Each transaction of the block was admissible after those before it. */
  lemma AdmittedAt(w: World, trace: seq<Turn>, i: nat) returns (k: nat)
    requires Closed(w) && Played(w, trace) && i < |Included(trace)|
    ensures k < |trace| && trace[k].tx == Included(trace)[i] && AllEligible(w, Included(trace)[..i])
    ensures Included(trace[..k]) == Included(trace)[..i] && Included(trace[..k + 1]) == Included(trace)[..i + 1]
    ensures Eligible(w, trace[k].tx) && Admissible(w, Included(trace)[..i], trace[k].tx, trace[k].byFee)
  {
    hide Closed, OrderAfter, Unbeaten, Admissible, Contender;
    k := TurnOf(trace, i);
    IncludedEligible(w, trace[..k]);
    assert TurnOk(w, trace[..k], trace[k]);
  }

  // ---------------------------------------------------------------- the block is determined

  /** Two candidates are told apart by priority or by fee rate. */
  ghost predicate NoTies(w: World)
    requires Closed(w)
  {
    forall a, b :: Eligible(w, a) && Eligible(w, b) && a != b ==>
      Ranked(w, a).dPriority != Ranked(w, b).dPriority || Ranked(w, a).dFeePerKb != Ranked(w, b).dFeePerKb
  }

  lemma SameTurn(w: World, past: seq<Turn>, a: Turn, b: Turn)
    requires Closed(w) && AllTurnsEligible(w, past) && NoTies(w) && TurnOk(w, past, a) && TurnOk(w, past, b)
    ensures a == b
  {
    hide Closed, Eligible, OrderAfter, Admissible, Priority, FeePerKb, Included, Settled;
    TurnEligible(w, past, a);
    TurnEligible(w, past, b);
    assert !Less(a.byFee, Ranked(w, a.tx), Ranked(w, b.tx)) && !Less(a.byFee, Ranked(w, b.tx), Ranked(w, a.tx));
  }

  lemma TurnEligible(w: World, past: seq<Turn>, turn: Turn)
    requires Closed(w) && AllTurnsEligible(w, past) && TurnOk(w, past, turn)
    ensures Eligible(w, turn.tx)
  {
    hide Closed, OrderAfter, Unbeaten, Admissible;
  }

  lemma {:induction false} SamePrefix(w: World, t: seq<Turn>, u: seq<Turn>, k: nat)
    requires Closed(w) && NoTies(w) && Played(w, t) && Played(w, u) && k <= |t| && k <= |u|
    ensures t[..k] == u[..k]
  {
    hide Closed, Eligible, NoTies, TurnOk;
    if k > 0 {
      SamePrefix(w, t, u, k - 1);
      assert TurnOk(w, t[..k - 1], t[k - 1]) && TurnOk(w, u[..k - 1], u[k - 1]);
      SameTurn(w, t[..k - 1], t[k - 1], u[k - 1]);
      assert t[..k] == t[..k - 1] + [t[k - 1]] && u[..k] == u[..k - 1] + [u[k - 1]];
    }
  }

  lemma TurnContends(w: World, trace: seq<Turn>, k: nat)
    requires Closed(w) && Played(w, trace)
    ensures k < |trace| ==> Contender(w, trace[..k], trace[k].tx)
  {
    hide Closed, Eligible, OrderAfter, Unbeaten, Admissible, Contender;
    if k < |trace| { assert TurnOk(w, trace[..k], trace[k]); }
  }

  /** Without ties the pool and the chain fix every turn, and so the block. */
  lemma BlockDetermined(w: World, t: seq<Turn>, u: seq<Turn>)
    requires Closed(w) && NoTies(w) && Played(w, t) && Played(w, u)
    requires (forall h :: !Contender(w, t, h)) && forall h :: !Contender(w, u, h)
    ensures t == u
  {
    hide Closed, Eligible, NoTies, Played, Contender;
    var k := if |t| < |u| then |t| else |u|;
    SamePrefix(w, t, u, k);
    assert t[..|t|] == t && u[..|u|] == u;
    TurnContends(w, u, |t|);
    TurnContends(w, t, |u|);
  }
}
