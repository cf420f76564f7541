/** Every step of the check queue's protocol keeps its invariant, so whatever the interleaving each Wait gives the
    right answer. */
module CheckQueueSafety {

  import opened CheckQueue
  import opened CheckQueueProtocol

  // ----- every step keeps it

  /** A step that only replaces phases by others that count for the same. */
  ghost predicate SameWeight(p: Phase, q: Phase) {
    Idle(p) == Idle(q) && Present(p) == Present(q) && Batch(p) == Batch(q) && p.Running? == q.Running?
  }

  lemma SameWeights(threads: seq<Phase>, u: seq<Phase>)
    requires |u| == |threads| && forall t :: 0 <= t < |u| ==> SameWeight(threads[t], u[t])
    ensures Sum(u, InFlight) == Sum(threads, InFlight)
    ensures Sum(u, Idle) == Sum(threads, Idle) && Sum(u, Present) == Sum(threads, Present)
    ensures forall c :: Sum(u, BatchCount(c)) == Sum(threads, BatchCount(c))
  {
    SumSame(threads, u, InFlight);
    SumSame(threads, u, Idle);
    SumSame(threads, u, Present);
    forall c ensures Sum(u, BatchCount(c)) == Sum(threads, BatchCount(c)) { SumSame(threads, u, BatchCount(c)); }
  }

  lemma AllOkAppend(a: seq<Check>, b: seq<Check>)
    ensures AllOk(a + b) <==> AllOk(a) && AllOk(b)
  {
    if AllOk(a + b) {
      forall c | c in a ensures c.ok { assert c in a + b; }
      forall c | c in b ensures c.ok { assert c in a + b; }
    }
  }

  /** Starting, waking and notifying change no count and no batch. */
  lemma QuietStep(s: State, u: State)
    requires Inv(s) && u == s.(threads := u.threads) && |u.threads| == |s.threads|
    requires forall t :: 0 <= t < |s.threads| ==> SameWeight(s.threads[t], u.threads[t]) && u.threads[t] != Holding
    requires forall t :: 0 <= t < |s.threads| && s.threads[t].Running? ==> u.threads[t] == s.threads[t]
    requires u.threads[0] == Waiting ==> s.threads[0] == Waiting
    ensures Inv(u)
  {
    SameWeights(s.threads, u.threads);
    forall t | 0 <= t < |s.threads| ensures BatchOk(u.threads[t]) == BatchOk(s.threads[t]) {}
  }

  lemma AddStep(s: State, vChecks: seq<Check>, lucky: nat)
    requires Inv(s) && Enabled(s, Add(vChecks, lucky))
    ensures Inv(Apply(s, Add(vChecks, lucky)))
  {
    var u := Apply(s, Add(vChecks, lucky));
    var v := s.(threads := u.threads);
    QuietStep(s, v);
    AllOkAppend(s.added, vChecks);
    AllOkAppend(s.sh.queue, vChecks);
  }

  lemma ExecBatch(p: Phase, q: Phase)
    requires p.Running? && p.next < |p.vChecks| && q == p.(next := p.next + 1, fOk := p.fOk && p.vChecks[p.next].ok)
    ensures BatchOk(p) <==> BatchOk(q)
  {
    assert p.vChecks[p.next..] == [p.vChecks[p.next]] + p.vChecks[q.next..];
    AllOkAppend([p.vChecks[p.next]], p.vChecks[q.next..]);
    assert AllOk([p.vChecks[p.next]]) <==> p.vChecks[p.next].ok;
  }

  /** Running a check: nothing is lost by skipping it once the batch has failed. */
  lemma ExecStep(s: State, t: nat)
    requires Inv(s) && Enabled(s, Exec(t))
    ensures Inv(Apply(s, Exec(t)))
  {
    hide Sum, AllOk, BatchCount, InFlight, Judged, BatchOk;
    var u := Apply(s, Exec(t));
    SameWeights(s.threads, u.threads);
    ExecBatch(s.threads[t], u.threads[t]);
    ExecJudged(s, u, t);
  }

  lemma ExecJudged(s: State, u: State, t: nat)
    requires Judged(s) && t < |s.threads| == |u.threads| && u == s.(threads := s.threads[t := u.threads[t]])
    requires BatchOk(s.threads[t]) <==> BatchOk(u.threads[t])
    ensures Judged(u)
  {
    hide AllOk, BatchOk;
    forall i | 0 <= i < |s.threads| ensures BatchOk(u.threads[i]) == BatchOk(s.threads[i]) {}
  }

  lemma PhaseUpdates(threads: seq<Phase>, t: nat, p: Phase)
    requires t < |threads|
    ensures Sum(threads[t := p], InFlight) == Sum(threads, InFlight) - |Batch(threads[t])| + |Batch(p)|
    ensures Sum(threads[t := p], Idle) == Sum(threads, Idle) - Idle(threads[t]) + Idle(p)
    ensures Sum(threads[t := p], Present) == Sum(threads, Present) - Present(threads[t]) + Present(p)
    ensures forall c ::
      Sum(threads[t := p], BatchCount(c)) == Sum(threads, BatchCount(c)) - BatchCount(c)(threads[t]) + BatchCount(c)(p)
  {
    SumUpdate(threads, InFlight, t, p);
    SumUpdate(threads, Idle, t, p);
    SumUpdate(threads, Present, t, p);
    forall c
      ensures Sum(threads[t := p], BatchCount(c)) ==
        Sum(threads, BatchCount(c)) - BatchCount(c)(threads[t]) + BatchCount(c)(p)
    {
      SumUpdate(threads, BatchCount(c), t, p);
    }
  }

  /** Waking the master leaves every count alone. */
  lemma WakeWeights(threads: seq<Phase>)
    requires |threads| >= 1
    ensures var u := threads[0 := Wake(threads[0])];
      Sum(u, InFlight) == Sum(threads, InFlight) && Sum(u, Idle) == Sum(threads, Idle) &&
      Sum(u, Present) == Sum(threads, Present) && forall c :: Sum(u, BatchCount(c)) == Sum(threads, BatchCount(c))
  {
    SameWeights(threads, threads[0 := Wake(threads[0])]);
  }

  /** All threads but t are the same, or woken. */
  ghost predicate OthersSame(s: State, u: State, t: nat) {
    |u.threads| == |s.threads| && forall i :: 0 <= i < |s.threads| && i != t ==>
      u.threads[i] == s.threads[i] || u.threads[i] == Wake(s.threads[i])
  }

  /** The threads after clean-up. */
  lemma CleanThreads(s: State, t: nat) returns (woken: seq<Phase>)
    requires Enabled(s, Lock(t)) && |s.threads| >= 1
    ensures |woken| == |s.threads| && woken[t] == s.threads[t] && CleanedUp(s, t).threads == woken[t := Holding]
    ensures Sum(woken, InFlight) == Sum(s.threads, InFlight) && Sum(woken, Idle) == Sum(s.threads, Idle)
    ensures Sum(woken, Present) == Sum(s.threads, Present)
    ensures forall c :: Sum(woken, BatchCount(c)) == Sum(s.threads, BatchCount(c))
    ensures woken == s.threads || woken == s.threads[0 := Wake(s.threads[0])]
    ensures s.threads[t].Running? && t != 0 && s.sh.nTodo == |Batch(s.threads[t])| > 0 ==> woken[0] != Waiting
  {
    hide Sum;
    woken := s.threads;
    if s.threads[t] != Woken &&
      Report(s.sh, t == 0, |Batch(s.threads[t])|, s.threads[t].Running? && s.threads[t].fOk).1 {
      WakeWeights(s.threads);
      woken := s.threads[0 := Wake(s.threads[0])];
    }
  }

  lemma CleanCounted(s: State, t: nat)
    requires Inv(s) && Enabled(s, Lock(t))
    ensures Counted(CleanedUp(s, t))
  {
    hide Sum, Judged, Conserved, MasterAttended, RoundsOk, BatchCount;
    var woken := CleanThreads(s, t);
    PhaseUpdates(woken, t, Holding);
  }

  lemma CleanConserved(s: State, t: nat)
    requires Inv(s) && Enabled(s, Lock(t))
    ensures Conserved(CleanedUp(s, t))
  {
    var woken := CleanThreads(s, t);
    PhaseUpdates(woken, t, Holding);
    hide Sum, Judged, Counted;
  }

  lemma TodoAtLeastZero(s: State)
    requires Counted(s)
    ensures s.sh.nTodo >= |s.sh.queue| && s.sh.nIdle >= 0 && s.sh.nTotal >= 0
  {
    SumBounds(s.threads, InFlight);
    SumBounds(s.threads, Idle);
    SumBounds(s.threads, Present);
  }

  lemma CleanJudged(s: State, t: nat)
    requires Inv(s) && Enabled(s, Lock(t)) && OthersSame(s, CleanedUp(s, t), t)
    ensures Judged(CleanedUp(s, t))
  {
    var p, u := s.threads[t], CleanedUp(s, t);
    assert u.threads[t] == Holding;
    if p.Running? {
      assert p.vChecks[p.next..] == [];
      assert BatchOk(p) <==> p.fOk;
    }
    forall i | 0 <= i < |s.threads| && i != t ensures BatchOk(u.threads[i]) == BatchOk(s.threads[i]) {}
    hide BatchOk;
    assert BatchOk(s.threads[t]) && (forall i :: 0 <= i < |s.threads| && i != t ==> BatchOk(s.threads[i]))
      <==> forall i :: 0 <= i < |s.threads| ==> BatchOk(s.threads[i]);
  }

  lemma CleanUpStep(s: State, t: nat)
    requires Inv(s) && Enabled(s, Lock(t))
    ensures PartInv(CleanedUp(s, t)) && OthersSame(s, CleanedUp(s, t), t) && CleanedUp(s, t).threads[t] == Holding
  {
    hide Sum, Judged, Counted, Conserved, MasterAttended;
    CleanOthers(s, t);
    CleanCounted(s, t);
    CleanConserved(s, t);
    CleanJudged(s, t);
    CleanAttended(s, t);
  }

  lemma CleanOthers(s: State, t: nat)
    requires Inv(s) && Enabled(s, Lock(t))
    ensures OthersSame(s, CleanedUp(s, t), t) && CleanedUp(s, t).threads[t] == Holding
  {
    var woken := CleanThreads(s, t);
    hide Sum, Judged, Counted, Conserved;
  }

  lemma CleanAttended(s: State, t: nat)
    requires Inv(s) && Enabled(s, Lock(t))
    ensures MasterAttended(CleanedUp(s, t))
  {
    var woken := CleanThreads(s, t);
    CleanCounted(s, t);
    TodoAtLeastZero(CleanedUp(s, t));
    hide Sum, Judged, Counted, Conserved;
  }

  lemma PoppedLast(queue: seq<Check>, n: nat)
    requires n <= |queue|
    ensures Popped(queue, n) == if n == 0 then [] else Popped(queue, n - 1) + [queue[|queue| - n]]
  {
  }

  lemma MoveLast(a: seq<Check>, b: seq<Check>, c: Check)
    ensures multiset(a + [c]) + multiset(b) == multiset(a) + multiset(b + [c])
  {
  }

  lemma {:induction false} PoppedSplit(queue: seq<Check>, n: nat)
    requires n <= |queue|
    ensures multiset(Popped(queue, n)) + multiset(queue[..|queue| - n]) == multiset(queue)
  {
    hide Popped;
    PoppedLast(queue, n);
    if n == 0 {
      assert queue[..|queue|] == queue;
    } else {
      PoppedSplit(queue, n - 1);
      var rest, last := queue[..|queue| - n], queue[|queue| - n];
      assert queue[..|queue| - (n - 1)] == rest + [last];
      MoveLast(Popped(queue, n - 1), rest, last);
    }
  }

  lemma AllOkSplit(s: seq<Check>, a: seq<Check>, b: seq<Check>)
    requires multiset(a) + multiset(b) == multiset(s)
    ensures AllOk(s) <==> AllOk(a) && AllOk(b)
  {
    forall c ensures c in s <==> c in a || c in b {
      assert c in multiset(s) <==> c in multiset(a) || c in multiset(b);
    }
  }

  /** Taking a batch. */
  lemma TakeStep(s: State, t: nat)
    requires PartInv(s) && t < |s.threads| && s.threads[t] == Holding && s.sh.queue != []
    ensures s.sh.nTotal >= 0 && s.sh.nIdle >= 0 && PartInv(Released(s, t))
  {
    TakeCounted(s, t);
    TakeConserved(s, t);
    TakeShape(s, t);
    var u := Released(s, t);
    hide Released, Counted, Conserved, Judged, AllOk;
    AllOkSplit(s.sh.queue, u.threads[t].vChecks, u.sh.queue);
    TakeJudged(s, t, u);
  }

  lemma TakeShape(s: State, t: nat)
    requires t < |s.threads| && s.threads[t] == Holding && s.sh.queue != [] && s.sh.nTotal >= 0 && s.sh.nIdle >= 0
    ensures var u := Released(s, t);
      && u == s.(sh := u.sh, threads := u.threads) && |u.threads| == |s.threads|
      && u.threads == s.threads[t := u.threads[t]] && u.sh.fAllOk == s.sh.fAllOk
      && u.threads[t].Running? && u.threads[t].next == 0 && u.threads[t].fOk == s.sh.fAllOk
      && |u.threads[t].vChecks| > 0
      && multiset(u.threads[t].vChecks) + multiset(u.sh.queue) == multiset(s.sh.queue)
  {
    BatchSizeBounds(s.sh);
    PoppedSplit(s.sh.queue, BatchSize(s.sh));
    hide BatchSize;
  }

  lemma TakeCounted(s: State, t: nat)
    requires Counted(s) && t < |s.threads| && s.threads[t] == Holding && s.sh.queue != []
    ensures s.sh.nTotal >= 0 && s.sh.nIdle >= 0 && Counted(Released(s, t))
  {
    TodoAtLeastZero(s);
    BatchSizeBounds(s.sh);
    PhaseUpdates(s.threads, t, Released(s, t).threads[t]);
    hide Sum, BatchSize;
  }

  lemma TakeConserved(s: State, t: nat)
    requires Counted(s) && Conserved(s) && t < |s.threads| && s.threads[t] == Holding && s.sh.queue != []
    ensures s.sh.nTotal >= 0 && s.sh.nIdle >= 0 && Conserved(Released(s, t))
  {
    TodoAtLeastZero(s);
    hide Sum, Counted, Released, BatchSize, Popped;
    TakeShape(s, t);
    var u := Released(s, t);
    PhaseUpdates(s.threads, t, u.threads[t]);
    forall c ensures multiset(u.added)[c] == multiset(u.sh.queue)[c] + Sum(u.threads, BatchCount(c)) + u.reported[c] {
      assert (multiset(u.threads[t].vChecks) + multiset(u.sh.queue))[c] == multiset(s.sh.queue)[c];
    }
  }

  lemma TakeJudged(s: State, t: nat, u: State)
    requires Judged(s) && t < |s.threads| == |u.threads| && s.threads[t] == Holding
    requires u.threads == s.threads[t := u.threads[t]]
    requires u.threads[t].Running? && u.threads[t].next == 0 && u.threads[t].fOk == s.sh.fAllOk == u.sh.fAllOk
    requires u.added == s.added && (AllOk(s.sh.queue) <==> AllOk(u.threads[t].vChecks) && AllOk(u.sh.queue))
    ensures Judged(u)
  {
    assert u.threads[t].vChecks[0..] == u.threads[t].vChecks;
    assert BatchOk(u.threads[t]) <==> u.threads[t].fOk && AllOk(u.threads[t].vChecks);
    forall i | 0 <= i < |s.threads| && i != t ensures BatchOk(u.threads[i]) == BatchOk(s.threads[i]) {}
    assert BatchOk(s.threads[t]);
    hide BatchOk, AllOk;
    assert (forall i :: 0 <= i < |s.threads| && i != t ==> BatchOk(s.threads[i])) <==>
      forall i :: 0 <= i < |s.threads| ==> BatchOk(s.threads[i]);
    assert BatchOk(u.threads[t]) && (forall i :: 0 <= i < |s.threads| && i != t ==> BatchOk(s.threads[i]))
      <==> forall i :: 0 <= i < |u.threads| ==> BatchOk(u.threads[i]);
  }

  /** Waiting, or leaving as a worker. */
  lemma LeaveStep(s: State, t: nat)
    requires PartInv(s) && t < |s.threads| && s.threads[t] == Holding && s.sh.queue == []
    requires t != 0 || s.sh.nTodo != 0
    ensures s.sh.nTotal >= 0 && s.sh.nIdle >= 0 && PartInv(Released(s, t))
  {
    TodoAtLeastZero(s);
    var u := Released(s, t);
    LeaveCounted(s, t);
    LeaveConserved(s, t);
    LeaveJudged(s, u);
    hide Counted, Conserved, Judged, AllOk;
  }

  lemma LeaveCounted(s: State, t: nat)
    requires Counted(s) && Conserved(s) && t < |s.threads| && s.threads[t] == Holding && s.sh.queue == []
    requires t != 0 || s.sh.nTodo != 0
    ensures s.sh.nTotal >= 0 && s.sh.nIdle >= 0 && Counted(Released(s, t))
  {
    TodoAtLeastZero(s);
    hide Sum, BatchCount, Conserved;
    PhaseUpdates(s.threads, t, Released(s, t).threads[t]);
  }

  lemma LeaveConserved(s: State, t: nat)
    requires Counted(s) && Conserved(s) && t < |s.threads| && s.threads[t] == Holding && s.sh.queue == []
    requires t != 0 || s.sh.nTodo != 0
    ensures s.sh.nTotal >= 0 && s.sh.nIdle >= 0 && Conserved(Released(s, t))
  {
    TodoAtLeastZero(s);
    hide Sum, Counted;
    PhaseUpdates(s.threads, t, Released(s, t).threads[t]);
  }

  lemma LeaveJudged(s: State, u: State)
    requires Judged(s) && u.added == s.added && u.sh.queue == s.sh.queue && u.sh.fAllOk == s.sh.fAllOk
    requires |u.threads| == |s.threads|
    requires forall t :: 0 <= t < |s.threads| ==>
      u.threads[t] == s.threads[t] || (!s.threads[t].Running? && !u.threads[t].Running?)
    ensures Judged(u)
  {
    forall i | 0 <= i < |s.threads| ensures BatchOk(u.threads[i]) == BatchOk(s.threads[i]) {}
    hide AllOk, BatchOk;
  }

  lemma {:induction false} AllIdle(s: State)
    requires Counted(s) && Shaped(s) && s.sh.nTodo == 0
    ensures s.sh.queue == [] && forall t :: 0 <= t < |s.threads| ==> !s.threads[t].Running?
    ensures forall c :: Sum(s.threads, BatchCount(c)) == 0
  {
    SumBounds(s.threads, InFlight);
    forall t | 0 <= t < |s.threads| ensures !s.threads[t].Running? && Batch(s.threads[t]) == [] {
      assert InFlight(s.threads[t]) <= Sum(s.threads, InFlight);
    }
    forall c ensures Sum(s.threads, BatchCount(c)) == 0 {
      SumZero(s.threads, BatchCount(c));
    }
  }

  /** The master returns: everything added has been reported, once, and the answer is its conjunction. */
  lemma ReturnStep(s: State)
    requires PartInv(s) && s.threads[0] == Holding && s.sh.queue == [] && s.sh.nTodo == 0
    ensures s.sh.nTotal >= 0 && s.sh.nIdle >= 0 && PartInv(Released(s, 0))
    ensures s.reported == multiset(s.added) && (s.sh.fAllOk <==> AllOk(s.added))
  {
    TodoAtLeastZero(s);
    AllIdle(s);
    var u := Released(s, 0);
    PhaseUpdates(s.threads, 0, Outside);
    hide Sum;
    assert s.reported == multiset(s.added);
    forall t | 0 <= t < |s.threads| ensures BatchOk(s.threads[t]) && BatchOk(u.threads[t]) {}
    ReturnJudged(s, u);
    hide BatchOk, AllOk, Judged;
  }

  lemma ReturnJudged(s: State, u: State)
    requires Judged(s) && s.sh.queue == [] && u.added == [] && u.sh.queue == [] && u.sh.fAllOk
    requires forall t :: 0 <= t < |s.threads| ==> BatchOk(s.threads[t])
    requires forall t :: 0 <= t < |u.threads| ==> BatchOk(u.threads[t])
    ensures Judged(u) && (s.sh.fAllOk <==> AllOk(s.added))
  {
  }

  /** A whole critical section. */
  lemma LockStep(s: State, t: nat)
    requires Inv(s) && Enabled(s, Lock(t))
    ensures Inv(Apply(s, Lock(t))) && |Apply(s, Lock(t)).threads| == |s.threads|
  {
    var h := CleanedUp(s, t);
    CleanUpStep(s, t);
    TodoAtLeastZero(h);
    NoHolding(s, t);
    hide Counted, Shaped, Judged, Conserved, MasterAttended, RoundsOk, OthersSame;
    hide CleanedUp, Released;
    if h.sh.queue != [] {
      TakeStep(h, t);
    } else if t != 0 || h.sh.nTodo != 0 {
      LeaveStep(h, t);
    } else {
      ReturnStep(h);
    }
  }

  lemma NoHolding(s: State, t: nat)
    requires Enabled(s, Lock(t)) && Holding !in s.threads && OthersSame(s, CleanedUp(s, t), t)
    requires CleanedUp(s, t).sh.nTotal >= 0 && CleanedUp(s, t).sh.nIdle >= 0 && t < |CleanedUp(s, t).threads|
    ensures Holding !in Released(CleanedUp(s, t), t).threads && |Released(CleanedUp(s, t), t).threads| == |s.threads|
  {
    var h := CleanedUp(s, t);
    hide CleanedUp;
    forall i | 0 <= i < |s.threads| && i != t ensures h.threads[i] != Holding {
      assert s.threads[i] in s.threads;
    }
    var u := Released(h, t);
    assert u.threads[t] != Holding && forall i :: 0 <= i < |s.threads| && i != t ==> u.threads[i] == h.threads[i];
  }

  lemma StepInv(s: State, step: Step)
    requires Inv(s) && Enabled(s, step)
    ensures Inv(Apply(s, step)) && |Apply(s, step).threads| == |s.threads|
  {
    match step
    case Start(t) => StartStep(s, t);
    case Add(vChecks, lucky) => AddStep(s, vChecks, lucky);
    case Wait => StartStep(s, 0);
    case Spurious(t) => QuietStep(s, Apply(s, step));
    case Exec(t) => ExecStep(s, t);
    case Lock(t) => LockStep(s, t);
  }

  lemma StartStep(s: State, t: nat)
    requires Inv(s) && t < |s.threads| && s.threads[t] == Outside
    ensures Inv(s.(threads := s.threads[t := Entering]))
  {
    QuietStep(s, s.(threads := s.threads[t := Entering]));
  }

  // ----- whole runs

  /** The state after a sequence of steps, each possible where it is taken. */
  ghost predicate Runs(s: State, steps: seq<Step>, u: State)
    decreases |steps|
  {
    if steps == [] then u == s
    else Enabled(s, steps[0]) && Runs(Apply(s, steps[0]), steps[1..], u)
  }

  lemma {:induction false} RunInv(s: State, steps: seq<Step>, u: State)
    requires Inv(s) && Runs(s, steps, u)
    ensures Inv(u)
    decreases |steps|
  {
    if steps != [] {
      StepInv(s, steps[0]);
      RunInv(Apply(s, steps[0]), steps[1..], u);
    }
  }

  /** Safety: whatever the interleaving, with any number of workers, every finished Wait returned the
      conjunction of exactly the checks added for it, and each of them had been reported once. */
  lemma WaitSafe(n: nat, fQuit: bool, nBatchSize: nat, steps: seq<Step>, u: State)
    requires Runs(Start0(n, fQuit, nBatchSize), steps, u)
    ensures forall r :: r in u.rounds ==> (r.fRet <==> AllOk(r.added)) && r.reported == multiset(r.added)
  {
    InitInv(n, fQuit, nBatchSize);
    RunInv(Start0(n, fQuit, nBatchSize), steps, u);
  }

  /** Before the first Add after a finished Wait, or at the start, the three assertions of a new
      CCheckQueueControl hold. */
  lemma UnusedBetweenRounds(n: nat, fQuit: bool, nBatchSize: nat, steps: seq<Step>, u: State)
    requires Runs(Start0(n, fQuit, nBatchSize), steps, u) && u.threads != [] && u.threads[0] == Outside && u.added == []
    ensures u.sh.nTotal == u.sh.nIdle && u.sh.nTodo == 0 && u.sh.fAllOk
  {
    InitInv(n, fQuit, nBatchSize);
    RunInv(Start0(n, fQuit, nBatchSize), steps, u);
    NothingAdded(u);
  }

  lemma NothingAdded(s: State)
    requires Inv(s) && s.added == []
    ensures s.sh.nTotal == s.sh.nIdle && s.sh.nTodo == 0 && s.sh.fAllOk
  {
    assert AllOk(s.added);
    forall c ensures multiset(s.sh.queue)[c] == 0 && Sum(s.threads, BatchCount(c)) == 0 {
      SumBounds(s.threads, BatchCount(c));
    }
    assert multiset(s.sh.queue) == multiset{};
    forall t | 0 <= t < |s.threads| ensures Batch(s.threads[t]) == [] {
      forall c ensures multiset(Batch(s.threads[t]))[c] == 0 {
        SumBounds(s.threads, BatchCount(c));
        assert BatchCount(c)(s.threads[t]) <= Sum(s.threads, BatchCount(c));
      }
      assert multiset(Batch(s.threads[t])) == multiset{};
    }
    SumZero(s.threads, InFlight);
    forall t | 0 <= t < |s.threads| ensures Idle(s.threads[t]) == Present(s.threads[t]) {
      assert s.threads[t] in s.threads;
    }
    SameSums(s.threads, Idle, Present);
  }

  lemma {:induction false} SameSums(threads: seq<Phase>, f: Phase -> int, g: Phase -> int)
    requires forall t :: 0 <= t < |threads| ==> f(threads[t]) == g(threads[t])
    ensures Sum(threads, f) == Sum(threads, g)
    decreases |threads|
  {
    if threads != [] { SameSums(threads[..|threads| - 1], f, g); }
  }
}
