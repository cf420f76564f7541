/** Any number of workers and one master around the queue of src/checkqueue.h, as atomic steps: every
    critical section is one step, split at the waits, and running one check is one step. */
module CheckQueueProtocol {
  import opened CheckQueue

  /** Where a thread stands. Thread 0 is the master; it is outside Loop while it adds work. */
  datatype Phase =
    | Outside                                            // not in Loop
    | Entering                                           // in Loop, before its first critical section
    | Waiting                                            // blocked on its condition variable
    | Woken                                              // notified or woken spuriously, before it has the mutex again
    | Running(vChecks: seq<Check>, next: nat, fOk: bool) // outside the mutex, with a batch
    | Holding                                            // has the mutex, so never between two steps

  /** One finished Wait: its answer, the checks added before it, and those reported before it. */
  datatype Round = Round(fRet: bool, added: seq<Check>, reported: multiset<Check>)

  /** The shared members and the threads; what was added and reported since the last Wait; finished Waits. */
  datatype State = State(
    sh: Shared, threads: seq<Phase>, added: seq<Check>, reported: multiset<Check>, rounds: seq<Round>)

  datatype Step =
    | Start(t: nat)                         // a worker thread calls Loop
    | Add(vChecks: seq<Check>, lucky: nat)  // the master adds checks; a single one wakes "lucky" if it waits
    | Wait                                  // the master calls Loop
    | Spurious(t: nat)                      // a wait ends for no reason
    | Exec(t: nat)                          // a thread runs, or skips, its next check
    | Lock(t: nat)                          // a thread goes through a critical section

  predicate Enabled(s: State, step: Step) {
    match step
    case Start(t) => 0 < t < |s.threads| && s.threads[t] == Outside
    case Add(vChecks, lucky) => |s.threads| > 0 && s.threads[0] == Outside
    case Wait => |s.threads| > 0 && s.threads[0] == Outside
    case Spurious(t) => t < |s.threads| && s.threads[t] == Waiting
    case Exec(t) => t < |s.threads| && s.threads[t].Running? && s.threads[t].next < |s.threads[t].vChecks|
    case Lock(t) => t < |s.threads| && s.sh.nTotal >= 0 && s.sh.nIdle >= 0 && WantsLock(s.threads[t], s.sh.nIdle)
  }

  predicate WantsLock(p: Phase, nIdle: int) {
    p == Entering || (p == Woken && nIdle >= 1) || (p.Running? && p.next == |p.vChecks|)
  }

  function Wake(p: Phase): Phase {
    if p == Waiting then Woken else p
  }

  /** Notification of the workers by Add: of all, or of one that waits. */
  function NotifyWorkers(threads: seq<Phase>, vChecks: seq<Check>, lucky: nat): seq<Phase> {
    if |vChecks| == 0 then threads
    else if |vChecks| == 1 then
      if 0 < lucky < |threads| then threads[lucky := Wake(threads[lucky])] else threads
    else seq(|threads|, t requires 0 <= t < |threads| => if t == 0 then threads[0] else Wake(threads[t]))
  }

  /** One check wakes the worker that was lucky, if it waits; more wake all; and the master is never woken by Add. */
  lemma Notified(threads: seq<Phase>, vChecks: seq<Check>, lucky: nat, t: nat)
    requires t < |threads|
    ensures |NotifyWorkers(threads, vChecks, lucky)| == |threads|
    ensures NotifyWorkers(threads, vChecks, lucky)[t] ==
      if threads[t] == Waiting && t >= 1 &&
        (|vChecks| >= 2 || (|vChecks| == 1 && t == lucky)) then Woken else threads[t]
  {
  }

  function Batch(p: Phase): seq<Check> {
    if p.Running? then p.vChecks else []
  }

  /** The first part of a critical section: thread t has the mutex and has cleaned up after its last round,
      waking the master if that was the last of the work. */
  function CleanedUp(s: State, t: nat): State
    requires Enabled(s, Lock(t))
  {
    var p := s.threads[t];
    if p == Woken then s.(sh := s.sh.(nIdle := s.sh.nIdle - 1), threads := s.threads[t := Holding])
    else
      var (sh, notify) := Report(s.sh, t == 0, |Batch(p)|, p.Running? && p.fOk);
      var threads := if notify then s.threads[0 := Wake(s.threads[0])] else s.threads;
      s.(sh := sh, threads := threads[t := Holding], reported := s.reported + multiset(Batch(p)))
  }

  /** The second part: thread t leaves, waits, or takes a batch. When the master leaves, its Wait is over. */
  function Released(s: State, t: nat): State
    requires t < |s.threads| && s.sh.nTotal >= 0 && s.sh.nIdle >= 0
  {
    var (sh, out) := Grab(s.sh, t == 0);
    match out
    case Took(vChecks, fOk) => s.(sh := sh, threads := s.threads[t := Running(vChecks, 0, fOk)])
    case Blocked => s.(sh := sh, threads := s.threads[t := Waiting])
    case Returned(fRet) =>
      if t == 0
      then State(sh, s.threads[0 := Outside], [], multiset{}, s.rounds + [Round(fRet, s.added, s.reported)])
      else s.(sh := sh, threads := s.threads[t := Outside])
  }

  function Apply(s: State, step: Step): State
    requires Enabled(s, step)
  {
    match step
    case Start(t) => s.(threads := s.threads[t := Entering])
    case Add(vChecks, lucky) =>
      s.(sh := s.sh.(queue := s.sh.queue + vChecks, nTodo := s.sh.nTodo + |vChecks|),
         threads := NotifyWorkers(s.threads, vChecks, lucky), added := s.added + vChecks)
    case Wait => s.(threads := s.threads[0 := Entering])
    case Spurious(t) => s.(threads := s.threads[t := Woken])
    case Exec(t) =>
      var p := s.threads[t];
      s.(threads := s.threads[t := p.(next := p.next + 1, fOk := p.fOk && p.vChecks[p.next].ok)])
    case Lock(t) => Released(CleanedUp(s, t), t)
  }

  // ----- sums over the threads

  function Sum(threads: seq<Phase>, f: Phase -> int): int {
    if threads == [] then 0 else Sum(threads[..|threads| - 1], f) + f(threads[|threads| - 1])
  }

  lemma {:induction false} SumUpdate(threads: seq<Phase>, f: Phase -> int, t: nat, p: Phase)
    requires t < |threads|
    ensures Sum(threads[t := p], f) == Sum(threads, f) - f(threads[t]) + f(p)
    decreases |threads|
  {
    var u, last := threads[t := p], |threads| - 1;
    if t < last {
      SumUpdate(threads[..last], f, t, p);
      assert u[..last] == threads[..last][t := p];
    } else {
      assert u[..last] == threads[..last];
    }
  }

  lemma {:induction false} SumSame(threads: seq<Phase>, u: seq<Phase>, f: Phase -> int)
    requires |u| == |threads| && forall t :: 0 <= t < |u| ==> f(u[t]) == f(threads[t])
    ensures Sum(u, f) == Sum(threads, f)
    decreases |threads|
  {
    if threads != [] { SumSame(threads[..|threads| - 1], u[..|u| - 1], f); }
  }

  lemma {:induction false} SumBounds(threads: seq<Phase>, f: Phase -> int)
    requires forall t :: 0 <= t < |threads| ==> f(threads[t]) >= 0
    ensures Sum(threads, f) >= 0 && forall t :: 0 <= t < |threads| ==> f(threads[t]) <= Sum(threads, f)
    decreases |threads|
  {
    if threads != [] { SumBounds(threads[..|threads| - 1], f); }
  }

  lemma {:induction false} SumPositive(threads: seq<Phase>, f: Phase -> int)
    requires Sum(threads, f) > 0
    ensures exists t :: 0 <= t < |threads| && f(threads[t]) > 0
    decreases |threads|
  {
    var last := |threads| - 1;
    if f(threads[last]) <= 0 {
      SumPositive(threads[..last], f);
      var t :| 0 <= t < last && f(threads[..last][t]) > 0;
      assert f(threads[t]) > 0;
    }
  }

  // ----- the invariant

  function Idle(p: Phase): int {
    if p == Waiting || p == Woken then 1 else 0
  }

  function Present(p: Phase): int {
    if p == Outside || p == Entering then 0 else 1
  }

  function InFlight(p: Phase): int {
    |Batch(p)|
  }

  function BatchCount(c: Check): Phase -> int {
    p => multiset(Batch(p))[c]
  }

  /** nTodo counts the queued checks and those in unreported batches; nTotal the threads that have entered
      Loop; nIdle those of them that wait. */
  ghost predicate Counted(s: State) {
    && s.sh.nTodo == |s.sh.queue| + Sum(s.threads, InFlight)
    && s.sh.nIdle == Sum(s.threads, Idle)
    && s.sh.nTotal == Sum(s.threads, Present)
  }

  /** Every batch holds at least one check. */
  ghost predicate Shaped(s: State) {
    && |s.threads| >= 1
    && forall t :: 0 <= t < |s.threads| && s.threads[t].Running? ==>
      0 < |s.threads[t].vChecks| && s.threads[t].next <= |s.threads[t].vChecks|
  }

  /** A failure among the checks added since the last Wait shows somewhere, and nothing else does. */
  ghost predicate Judged(s: State) {
    AllOk(s.added) <==> s.sh.fAllOk && AllOk(s.sh.queue) && forall t :: 0 <= t < |s.threads| ==> BatchOk(s.threads[t])
  }

  ghost predicate BatchOk(p: Phase) {
    p.Running? && p.next <= |p.vChecks| ==> p.fOk && AllOk(p.vChecks[p.next..])
  }

  /** Every check added since the last Wait is queued, in one batch, or reported, and counted once. */
  ghost predicate Conserved(s: State) {
    forall c :: multiset(s.added)[c] == multiset(s.sh.queue)[c] + Sum(s.threads, BatchCount(c)) + s.reported[c]
  }

  /** The master waits only for unreported batches of others. */
  ghost predicate MasterAttended(s: State) {
    |s.threads| >= 1 && s.threads[0] == Waiting ==> s.sh.queue == [] && s.sh.nTodo > 0
  }

  /** Every finished Wait returned the conjunction of all checks added for it, each reported exactly once. */
  ghost predicate RoundsOk(s: State) {
    forall r :: r in s.rounds ==> (r.fRet <==> AllOk(r.added)) && r.reported == multiset(r.added)
  }

  ghost predicate PartInv(s: State) {
    Counted(s) && Shaped(s) && Judged(s) && Conserved(s) && MasterAttended(s) && RoundsOk(s)
  }

  ghost predicate Inv(s: State) {
    PartInv(s) && Holding !in s.threads
  }

  function Start0(n: nat, fQuit: bool, nBatchSize: nat): State {
    State(Shared([], 0, 0, true, 0, fQuit, nBatchSize), seq(n + 1, _ => Outside), [], multiset{}, [])
  }

  lemma {:induction false} SumZero(threads: seq<Phase>, f: Phase -> int)
    requires forall t :: 0 <= t < |threads| ==> f(threads[t]) == 0
    ensures Sum(threads, f) == 0
    decreases |threads|
  {
    if threads != [] { SumZero(threads[..|threads| - 1], f); }
  }

  lemma InitInv(n: nat, fQuit: bool, nBatchSize: nat)
    ensures Inv(Start0(n, fQuit, nBatchSize))
  {
    var s := Start0(n, fQuit, nBatchSize);
    SumZero(s.threads, InFlight);
    SumZero(s.threads, Idle);
    SumZero(s.threads, Present);
    forall c ensures Sum(s.threads, BatchCount(c)) == 0 { SumZero(s.threads, BatchCount(c)); }
  }
}
