/** No deadlock and no lost wake-up in the check queue: under fair scheduling every Wait returns. */
module CheckQueueLiveness {
  import opened CheckQueue
  import opened CheckQueueProtocol
  import opened CheckQueueSafety

  predicate MasterIn(s: State) {
    |s.threads| > 0 && s.threads[0] != Outside
  }

  function Work(p: Phase): int {
    if p.Running? then 2 * (|p.vChecks| - p.next) + 1 else 0
  }

  /** The work ahead: no step adds to it while the master is in Loop. */
  function Ahead(s: State): int {
    4 * |s.sh.queue| + Sum(s.threads, Work) + if MasterIn(s) then 1 else 0
  }

  /** A thread whose next step brings the end of the Wait closer: one with a batch, or else the master. */
  ghost predicate Helpful(s: State, t: nat) {
    t < |s.threads| &&
      (s.threads[t].Running? || (t == 0 && forall i :: 0 <= i < |s.threads| ==> !s.threads[i].Running?))
  }

  predicate By(step: Step, t: nat) {
    step == Exec(t) || step == Lock(t)
  }

  predicate CanStep(s: State, t: nat) {
    Enabled(s, Exec(t)) || Enabled(s, Lock(t))
  }

  lemma AheadAtLeastZero(s: State)
    requires Shaped(s)
    ensures Ahead(s) >= 0
  {
    forall t | 0 <= t < |s.threads| ensures Work(s.threads[t]) >= 0 {}
    SumBounds(s.threads, Work);
  }

  /** While the master waits, some worker holds a batch that it has not reported. */
  lemma WaitingMasterHasHelp(s: State) returns (t: nat)
    requires Inv(s) && s.threads[0] == Waiting
    ensures 0 < t < |s.threads| && s.threads[t].Running?
  {
    SumPositive(s.threads, InFlight);
    t :| 0 <= t < |s.threads| && InFlight(s.threads[t]) > 0;
  }

  lemma SomeHelpful(s: State) returns (t: nat)
    requires MasterIn(s)
    ensures Helpful(s, t)
  {
    if i :| 0 <= i < |s.threads| && s.threads[i].Running? {
      t := i;
    } else {
      t := 0;
    }
  }

  /** A helpful thread is never blocked. */
  lemma HelpfulCanStep(s: State, t: nat)
    requires Inv(s) && MasterIn(s) && Helpful(s, t)
    ensures CanStep(s, t)
  {
    TodoAtLeastZero(s);
    SumBounds(s.threads, Idle);
    assert s.threads[t] in s.threads;
    if !s.threads[t].Running? && s.threads[0] == Waiting {
      var i := WaitingMasterHasHelp(s);
    }
    hide Sum;
  }

  lemma WorkUpdate(s: State, t: nat, p: Phase)
    requires t < |s.threads|
    ensures Sum(s.threads[t := p], Work) == Sum(s.threads, Work) - Work(s.threads[t]) + Work(p)
  {
    SumUpdate(s.threads, Work, t, p);
  }

  lemma CleanedAhead(s: State, t: nat)
    requires Inv(s) && Enabled(s, Lock(t))
    ensures var h := CleanedUp(s, t);
      h.sh.queue == s.sh.queue && |h.threads| == |s.threads| && h.threads[t] == Holding &&
      Sum(h.threads, Work) == Sum(s.threads, Work) - Work(s.threads[t]) &&
      (s.threads[t].Running? ==> Work(s.threads[t]) == 1)
  {
    hide Sum;
    var woken := CleanThreads(s, t);
    SumSame(s.threads, woken, Work);
    SumUpdate(woken, Work, t, Holding);
  }

  /** A critical section adds no work, and it removes some if its thread had a batch, if the queue was not
      empty, or if the master leaves. */
  lemma LockAhead(s: State, t: nat)
    requires Inv(s) && Enabled(s, Lock(t)) && MasterIn(s)
    ensures var u := Apply(s, Lock(t));
      && Ahead(u) <= Ahead(s)
      && (s.threads[t].Running? || s.sh.queue != [] || (t == 0 && s.sh.nTodo == 0) ==> Ahead(u) < Ahead(s))
      && (Ahead(u) == Ahead(s) ==> MasterIn(u))
  {
    var h := CleanedUp(s, t);
    CleanedAhead(s, t);
    CleanUpStep(s, t);
    TodoAtLeastZero(h);
    if h.sh.queue != [] {
      TakeAhead(h, t);
    } else {
      LeaveAhead(h, t);
    }
    hide Sum, CleanedUp, Released;
  }

  lemma TakeAhead(h: State, t: nat)
    requires t < |h.threads| && h.threads[t] == Holding && h.sh.queue != [] && h.sh.nTotal >= 0 && h.sh.nIdle >= 0
    ensures var u := Released(h, t);
      |u.threads| == |h.threads| && 4 * |u.sh.queue| + Sum(u.threads, Work) < 4 * |h.sh.queue| + Sum(h.threads, Work)
    ensures t == 0 ==> MasterIn(Released(h, t))
    ensures t != 0 ==> (MasterIn(Released(h, t)) <==> MasterIn(h))
  {
    TakeShape(h, t);
    var u := Released(h, t);
    WorkUpdate(h, t, u.threads[t]);
    assert |multiset(u.threads[t].vChecks) + multiset(u.sh.queue)| == |multiset(h.sh.queue)|;
    assert |u.threads[t].vChecks| + |u.sh.queue| == |h.sh.queue|;
    hide Sum, Released;
  }

  lemma LeaveAhead(h: State, t: nat)
    requires t < |h.threads| && h.threads[t] == Holding && h.sh.queue == [] && h.sh.nTotal >= 0 && h.sh.nIdle >= 0
    ensures var u := Released(h, t);
      |u.threads| == |h.threads| && u.sh.queue == [] && Sum(u.threads, Work) == Sum(h.threads, Work)
    ensures t == 0 ==> (MasterIn(Released(h, t)) <==> h.sh.nTodo != 0)
    ensures t != 0 ==> (MasterIn(Released(h, t)) <==> MasterIn(h))
  {
    WorkUpdate(h, t, Released(h, t).threads[t]);
    hide Sum;
  }

  lemma ExecAhead(s: State, t: nat)
    requires Enabled(s, Exec(t)) && MasterIn(s)
    ensures Ahead(Apply(s, Exec(t))) < Ahead(s)
  {
    WorkUpdate(s, t, Apply(s, Exec(t)).threads[t]);
    hide Sum;
  }

  /** A helpful thread's own step is progress. */
  lemma HelpfulStep(s: State, t: nat, step: Step)
    requires Inv(s) && MasterIn(s) && Helpful(s, t) && By(step, t) && Enabled(s, step)
    ensures Ahead(Apply(s, step)) < Ahead(s)
  {
    if step == Exec(t) {
      ExecAhead(s, t);
    } else {
      LockAhead(s, t);
      if !s.threads[t].Running? && s.sh.queue == [] {
        SumZero(s.threads, InFlight);
      }
      hide Sum, Ahead;
    }
  }

  /** Any other step either is progress or leaves the helpful thread helpful and the master in Loop. */
  lemma OtherStep(s: State, t: nat, step: Step)
    requires Inv(s) && MasterIn(s) && Helpful(s, t) && !By(step, t) && Enabled(s, step)
    ensures var u := Apply(s, step);
      Ahead(u) <= Ahead(s) && (Ahead(u) == Ahead(s) ==> MasterIn(u) && Helpful(u, t))
  {
    var u := Apply(s, step);
    match step
    case Start(i) => WorkUpdate(s, i, Entering); hide Sum;
    case Spurious(i) => WorkUpdate(s, i, Woken); hide Sum;
    case Exec(i) => ExecAhead(s, i); hide Sum, Ahead;
    case Lock(i) =>
      LockAhead(s, i);
      if Ahead(u) == Ahead(s) { LockOthers(s, i, t); }
      hide Sum, Ahead;
    case Add(vChecks, lucky) =>
    case Wait =>
  }

  /** A critical section of a thread without a batch over an empty queue gives no thread a batch and takes
      none away. */
  lemma LockOthers(s: State, i: nat, t: nat)
    requires Inv(s) && Enabled(s, Lock(i)) && !s.threads[i].Running? && s.sh.queue == [] && Helpful(s, t)
    ensures Helpful(Apply(s, Lock(i)), t)
  {
    CleanUpStep(s, i);
    var h := CleanedUp(s, i);
    TodoAtLeastZero(h);
    assert h.sh.queue == [];
    hide Inv, CleanedUp, PartInv, Counted;
    LeftOthers(h, i);
    var u := Released(h, i);
    hide Released, Grab;
    forall j | 0 <= j < |s.threads| ensures u.threads[j].Running? <==> s.threads[j].Running? {}
  }

  lemma LeftOthers(h: State, i: nat)
    requires i < |h.threads| && h.threads[i] == Holding && h.sh.queue == [] && h.sh.nTotal >= 0 && h.sh.nIdle >= 0
    ensures var u := Released(h, i);
      |u.threads| == |h.threads| && !u.threads[i].Running? &&
      forall j :: 0 <= j < |h.threads| && j != i ==> u.threads[j] == h.threads[j]
  {
  }

  // ----- infinite runs

  ghost predicate StepAt(run: nat -> State, sched: nat -> Step, i: nat) {
    Enabled(run(i), sched(i)) && run(i + 1) == Apply(run(i), sched(i))
  }

  ghost predicate IsRun(run: nat -> State, sched: nat -> Step) {
    Inv(run(0)) && forall i: nat :: StepAt(run, sched, i)
  }

  /** Thread t takes a step at j, or could not. */
  ghost predicate Turn(run: nat -> State, sched: nat -> Step, t: nat, j: nat) {
    By(sched(j), t) || !CanStep(run(j), t)
  }

  ghost predicate TurnAfter(run: nat -> State, sched: nat -> Step, t: nat, i: nat) {
    exists j: nat :: i <= j && Turn(run, sched, t, j)
  }

  /** No thread that can go on is passed over for ever. */
  ghost predicate Fair(run: nat -> State, sched: nat -> Step) {
    forall t: nat, i: nat :: TurnAfter(run, sched, t, i)
  }

  lemma {:induction false} InvAt(run: nat -> State, sched: nat -> Step, i: nat)
    requires IsRun(run, sched)
    ensures Inv(run(i))
  {
    if i > 0 {
      InvAt(run, sched, i - 1);
      assert StepAt(run, sched, i - 1);
      StepInv(run(i - 1), sched(i - 1));
    }
  }

  /** From i until t's turn at j, either there is progress or t stays helpful. */
  lemma {:induction false} UntilTurn(run: nat -> State, sched: nat -> Step, t: nat, i: nat, j: nat) returns (k: nat)
    requires IsRun(run, sched) && i <= j && Turn(run, sched, t, j)
    requires MasterIn(run(i)) && Helpful(run(i), t)
    ensures i <= k && Ahead(run(k)) < Ahead(run(i))
    decreases j - i
  {
    InvAt(run, sched, i);
    assert StepAt(run, sched, i);
    if By(sched(i), t) {
      HelpfulStep(run(i), t, sched(i));
      k := i + 1;
    } else {
      HelpfulCanStep(run(i), t);
      OtherStep(run(i), t, sched(i));
      if Ahead(run(i + 1)) < Ahead(run(i)) {
        k := i + 1;
      } else {
        k := UntilTurn(run, sched, t, i + 1, j);
      }
    }
  }

  /** In every fair run, with any number of workers, a master in Loop gets out of it: each Wait returns. */
  lemma {:induction false} WaitReturns(run: nat -> State, sched: nat -> Step, i: nat) returns (j: nat)
    requires IsRun(run, sched) && Fair(run, sched)
    ensures i <= j && !MasterIn(run(j))
    decreases Ahead(run(i))
  {
    hide IsRun, Turn, Ahead, Inv, Helpful, Enabled;
    Bounded(run, sched, i);
    if !MasterIn(run(i)) {
      j := i;
    } else {
      var t := SomeHelpful(run(i));
      assert TurnAfter(run, sched, t, i);
      var turn: nat :| i <= turn && Turn(run, sched, t, turn);
      var k := UntilTurn(run, sched, t, i, turn);
      Bounded(run, sched, k);
      j := WaitReturns(run, sched, k);
    }
  }

  lemma Bounded(run: nat -> State, sched: nat -> Step, i: nat)
    requires IsRun(run, sched)
    ensures Ahead(run(i)) >= 0
  {
    InvAt(run, sched, i);
    AheadAtLeastZero(run(i));
  }
}
