/** The parallel check queue of src/checkqueue.h: its critical sections, imperative and as functions. */
module CheckQueue {

  /** A queued verification, with the answer its call operator would give. */
  datatype Check = Check(id: nat, ok: bool)

  /** The members that the mutex protects. */
  datatype Shared = Shared(
    queue: seq<Check>, nIdle: int, nTotal: int, fAllOk: bool, nTodo: int, fQuit: bool, nBatchSize: nat)

  /** How a critical section of Loop ends. */
  datatype Outcome = Returned(fRet: bool) | Blocked | Took(vChecks: seq<Check>, fOk: bool)

  ghost predicate AllOk(s: seq<Check>) {
    forall c :: c in s ==> c.ok
  }

  function BatchSize(sh: Shared): nat
    requires sh.nTotal >= 0 && sh.nIdle >= 0
  {
    var share := |sh.queue| / (sh.nTotal + sh.nIdle + 1);
    var n := if share < sh.nBatchSize then share else sh.nBatchSize;
    if n < 1 then 1 else n
  }

  lemma BatchSizeBounds(sh: Shared)
    requires sh.nTotal >= 0 && sh.nIdle >= 0 && sh.queue != []
    ensures 1 <= BatchSize(sh) <= |sh.queue|
    ensures BatchSize(sh) <= sh.nBatchSize <==> sh.nBatchSize >= 1
  {
    ShareAtMost(|sh.queue|, sh.nTotal + sh.nIdle + 1);
  }

  /** The share of a thread: as long as a batch has more than one check, each thread that takes part, busy or idle, and
      one more could take as many; and it is the largest such batch within the limit. */
  lemma BatchIsShare(sh: Shared)
    requires sh.nTotal >= 0 && sh.nIdle >= 0
    ensures BatchSize(sh) > 1 ==> BatchSize(sh) * (sh.nTotal + sh.nIdle + 1) <= |sh.queue|
    ensures BatchSize(sh) < sh.nBatchSize ==> (BatchSize(sh) + 1) * (sh.nTotal + sh.nIdle + 1) > |sh.queue|
  {
    var n, d := BatchSize(sh), sh.nTotal + sh.nIdle + 1;
    ShareExact(|sh.queue|, d);
    if n > 1 { ShareScaled(n, |sh.queue| / d, d); }
    if n < sh.nBatchSize { ShareScaled(|sh.queue| / d + 1, n + 1, d); }
  }

  lemma ShareExact(q: nat, d: nat)
    requires d >= 1
    ensures q / d * d <= q < (q / d + 1) * d
  {
    assert q == q / d * d + q % d;
  }

  lemma ShareScaled(i: int, j: int, d: nat)
    ensures i <= j ==> i * d <= j * d
  {
    if i <= j { assert (j - i) * d >= 0; }
  }

  lemma ShareAtMost(q: nat, d: nat)
    requires d >= 1
    ensures 0 <= q / d <= q
  {
    var share := q / d;
    assert q == share * d + q % d;
    assert share * d == share + share * (d - 1);
  }

  /** The last n elements, last one first: the queue is used as a stack. */
  function Popped(queue: seq<Check>, n: nat): (r: seq<Check>)
    requires n <= |queue|
    ensures |r| == n
    ensures forall i :: 0 <= i < n ==> r[i] == queue[|queue| - 1 - i]
  {
    if n == 0 then [] else Popped(queue, n - 1) + [queue[|queue| - n]]
  }

  /** The body of Loop after its clean-up: leave, wait, or take a batch. */
  function Grab(sh: Shared, fMaster: bool): (Shared, Outcome)
    requires sh.nTotal >= 0 && sh.nIdle >= 0
  {
    if sh.queue == [] then
      if (fMaster || sh.fQuit) && sh.nTodo == 0
      then (sh.(nTotal := sh.nTotal - 1, fAllOk := fMaster || sh.fAllOk), Returned(sh.fAllOk))
      else (sh.(nIdle := sh.nIdle + 1), Blocked)
    else
      BatchSizeBounds(sh);
      var n := BatchSize(sh);
      (sh.(queue := sh.queue[..|sh.queue| - n]), Took(Popped(sh.queue, n), sh.fAllOk))
  }

  /** A batch is the end of the queue, and it starts with the answer so far, so that it is skipped after a failure. */
  lemma BatchTaken(sh: Shared, fMaster: bool)
    requires sh.nTotal >= 0 && sh.nIdle >= 0 && sh.queue != []
    ensures var (r, out) := Grab(sh, fMaster);
      && out.Took? && out.fOk == sh.fAllOk && 1 <= |out.vChecks| <= |sh.queue|
      && r == sh.(queue := sh.queue[..|sh.queue| - |out.vChecks|])
      && forall i :: 0 <= i < |out.vChecks| ==> out.vChecks[i] == sh.queue[|sh.queue| - 1 - i]
  {
    BatchSizeBounds(sh);
  }

  /** The clean-up of the previous round of Loop; the flag says whether the master is notified. */
  function Report(sh: Shared, fMaster: bool, nNow: nat, fOk: bool): (Shared, bool) {
    if nNow != 0 then
      var r := sh.(fAllOk := sh.fAllOk && fOk, nTodo := sh.nTodo - nNow);
      (r, r.nTodo == 0 && !fMaster)
    else (sh.(nTotal := sh.nTotal + 1), false)
  }

  class CCheckQueue {
    var queue: seq<Check>
    var nIdle: int
    var nTotal: int
    var fAllOk: bool
    var nTodo: int
    var fQuit: bool
    const nBatchSize: nat

    ghost function Now(): Shared
      reads this
    {
      Shared(queue, nIdle, nTotal, fAllOk, nTodo, fQuit, nBatchSize)
    }

    constructor (nBatchSizeIn: nat)
      ensures Now() == Shared([], 0, 0, true, 0, false, nBatchSizeIn)
    {
      queue, nIdle, nTotal, fAllOk, nTodo, fQuit, nBatchSize := [], 0, 0, true, 0, false, nBatchSizeIn;
    }

    /** The critical section a thread enters with a finished batch, or for the first time with nNow == 0. */
    method EnterSection(fMaster: bool, nNow: nat, fOk: bool) returns (out: Outcome, notifyMaster: bool)
      requires nTotal >= 0 && nIdle >= 0
      modifies this
      ensures var (sh, notify) := Report(old(Now()), fMaster, nNow, fOk);
        notifyMaster == notify && (Now(), out) == Grab(sh, fMaster)
    {
      notifyMaster := false;
      if nNow != 0 {
        fAllOk := fAllOk && fOk;
        nTodo := nTodo - nNow;
        if nTodo == 0 && !fMaster { notifyMaster := true; }
      } else {
        nTotal := nTotal + 1;
      }
      out := Section(fMaster);
    }

    /** The critical section a thread resumes when its wait ends. */
    method ResumeSection(fMaster: bool) returns (out: Outcome)
      requires nTotal >= 0 && nIdle >= 1
      modifies this
      ensures (Now(), out) == Grab(old(Now()).(nIdle := old(nIdle) - 1), fMaster)
    {
      nIdle := nIdle - 1;
      out := Section(fMaster);
    }

    /** The part both share, from the test of the queue to the release of the mutex. */
    method Section(fMaster: bool) returns (out: Outcome)
      requires nTotal >= 0 && nIdle >= 0
      modifies this
      ensures (Now(), out) == Grab(old(Now()), fMaster)
    {
      if queue == [] {
        if (fMaster || fQuit) && nTodo == 0 {
          nTotal := nTotal - 1;
          var fRet := fAllOk;
          if fMaster { fAllOk := true; }
          return Returned(fRet);
        }
        nIdle := nIdle + 1;
        return Blocked;
      }
      var share := |queue| / (nTotal + nIdle + 1);
      var least := if share < nBatchSize then share else nBatchSize;
      var nNow := if least < 1 then 1 else least;
      BatchSizeBounds(Now());
      var vChecks := TakeBatch(nNow);
      return Took(vChecks, fAllOk);
    }

    /** Moves checks from the end of the queue into a batch. */
    method TakeBatch(nNow: nat) returns (vChecks: seq<Check>)
      requires nNow <= |queue|
      modifies this`queue
      ensures vChecks == Popped(old(queue), nNow) && queue == old(queue)[..|old(queue)| - nNow]
    {
      vChecks := [];
      for i := 0 to nNow
        invariant |vChecks| == i && queue == old(queue)[..|old(queue)| - i]
        invariant vChecks == Popped(old(queue), i)
      {
        vChecks := vChecks + [queue[|queue| - 1]];
        queue := queue[..|queue| - 1];
      }
    }

    /** The master's Add; the counter says how many workers are notified, with 2 standing for all. */
    method Add(vChecks: seq<Check>) returns (notify: nat)
      modifies this
      ensures Now() == old(Now()).(queue := old(queue) + vChecks, nTodo := old(nTodo) + |vChecks|)
      ensures notify == if |vChecks| == 1 then 1 else if |vChecks| > 1 then 2 else 0
    {
      var i := 0;
      while i < |vChecks|
        invariant 0 <= i <= |vChecks|
        invariant Now() == old(Now()).(queue := old(queue) + vChecks[..i])
      {
        queue := queue + [vChecks[i]];
        i := i + 1;
      }
      nTodo := nTodo + |vChecks|;
      return if |vChecks| == 1 then 1 else if |vChecks| > 1 then 2 else 0;
    }

    /** The work between critical sections; the ghost result lists the checks that ran. The rest of a batch is skipped
        once a check has failed, and all of it if one had failed before. */
    method Execute(vChecks: seq<Check>, fOkIn: bool) returns (fOk: bool, ghost ran: seq<Check>)
      ensures fOk <==> fOkIn && AllOk(vChecks)
      ensures ran <= vChecks && (!fOkIn ==> ran == [])
      ensures fOkIn ==> (forall i :: 0 <= i < |ran| - 1 ==> ran[i].ok)
      ensures fOkIn ==> ran == vChecks || (ran != [] && !ran[|ran| - 1].ok)
    {
      fOk, ran := fOkIn, [];
      var i := 0;
      while i < |vChecks|
        invariant 0 <= i <= |vChecks|
        invariant fOk <==> fOkIn && AllOk(vChecks[..i])
        invariant ran <= vChecks[..i] && (fOk ==> ran == vChecks[..i]) && (!fOkIn ==> ran == [])
        invariant !fOk && fOkIn ==> ran != [] && !ran[|ran| - 1].ok && forall k :: 0 <= k < |ran| - 1 ==> ran[k].ok
      {
        assert vChecks[..i + 1] == vChecks[..i] + [vChecks[i]];
        if fOk {
          fOk := vChecks[i].ok;
          ran := ran + [vChecks[i]];
        }
        i := i + 1;
      }
      assert vChecks[..i] == vChecks;
    }
  }
}
