/** A map with a reverse index ordered by value, from which the least is evicted (src/limitedmap.h). */
module LimitedMap {

  import Ascending

  type Key = int

  type Val = int

  /** A node of the multimap: a value and the key whose entry it points to. */
  datatype Node = Node(v: Val, k: Key)

  ghost predicate Sorted(rmap: seq<Node>) {
    forall i, j :: 0 <= i < j < |rmap| ==> rmap[i].v <= rmap[j].v
  }

  /** The reverse index holds every entry of the map once, in order of value. */
  ghost predicate Inverse(m: map<Key, Val>, rmap: seq<Node>) {
    && Sorted(rmap)
    && (forall i, j :: 0 <= i < j < |rmap| ==> rmap[i].k != rmap[j].k)
    && (forall i :: 0 <= i < |rmap| ==> rmap[i].k in m && m[rmap[i].k] == rmap[i].v)
    && (forall k :: k in m ==> Points(rmap, k))
  }

  ghost predicate Points(rmap: seq<Node>, k: Key) {
    exists i :: 0 <= i < |rmap| && rmap[i].k == k
  }

  /** No entry has a smaller value than k's. */
  ghost predicate LeastEntry(m: map<Key, Val>, k: Key) {
    k in m && forall x :: x in m ==> m[k] <= m[x]
  }

  /** i is where multimap::insert puts v: after all that are not greater. */
  ghost predicate InsertsAt(rmap: seq<Node>, v: Val, i: nat) {
    i <= |rmap| && (forall j :: 0 <= j < i ==> rmap[j].v <= v) && (forall j :: i <= j < |rmap| ==> rmap[j].v > v)
  }

  function Inserted(rmap: seq<Node>, i: nat, n: Node): seq<Node>
    requires i <= |rmap|
  {
    rmap[..i] + [n] + rmap[i..]
  }

  function Removed(rmap: seq<Node>, i: nat): seq<Node>
    requires i < |rmap|
  {
    rmap[..i] + rmap[i + 1..]
  }

  lemma PointsInserted(m: map<Key, Val>, rmap: seq<Node>, n: Node, i: nat)
    requires Inverse(m, rmap) && i <= |rmap|
    ensures forall k :: k in m[n.k := n.v] ==> Points(Inserted(rmap, i, n), k)
  {
    var r := Inserted(rmap, i, n);
    forall k | k in m[n.k := n.v] ensures Points(r, k) {
      if k == n.k {
        assert r[i].k == k;
      } else {
        assert Points(rmap, k);
        var j :| 0 <= j < |rmap| && rmap[j].k == k;
        assert r[if j < i then j else j + 1].k == k;
      }
    }
  }

  lemma InverseInserted(m: map<Key, Val>, rmap: seq<Node>, k: Key, v: Val, i: nat)
    requires Inverse(m, rmap) && k !in m && InsertsAt(rmap, v, i)
    ensures Inverse(m[k := v], Inserted(rmap, i, Node(v, k)))
  {
    hide Points;
    var r := Inserted(rmap, i, Node(v, k));
    PointsInserted(m, rmap, Node(v, k), i);
    assert forall j :: 0 <= j < |r| ==> r[j] == if j < i then rmap[j] else if j == i then Node(v, k) else rmap[j - 1];
    hide Inserted;
  }

  lemma PointsRemoved(m: map<Key, Val>, rmap: seq<Node>, i: nat)
    requires Inverse(m, rmap) && i < |rmap|
    ensures forall k :: k in m - {rmap[i].k} ==> Points(Removed(rmap, i), k)
  {
    var r := Removed(rmap, i);
    forall k | k in m - {rmap[i].k} ensures Points(r, k) {
      assert Points(rmap, k);
      var j :| 0 <= j < |rmap| && rmap[j].k == k;
      assert r[if j < i then j else j - 1].k == k;
    }
  }

  lemma InverseRemoved(m: map<Key, Val>, rmap: seq<Node>, i: nat)
    requires Inverse(m, rmap) && i < |rmap|
    ensures Inverse(m - {rmap[i].k}, Removed(rmap, i))
  {
    hide Points;
    var r := Removed(rmap, i);
    PointsRemoved(m, rmap, i);
    assert forall j :: 0 <= j < |r| ==> r[j] == rmap[if j < i then j else j + 1];
    hide Removed;
  }

  lemma FirstIsLeast(m: map<Key, Val>, rmap: seq<Node>)
    requires Inverse(m, rmap) && rmap != []
    ensures LeastEntry(m, rmap[0].k)
  {
    forall x | x in m ensures m[rmap[0].k] <= m[x] {
      assert Points(rmap, x);
    }
  }

  /** Both structures have the same number of entries. */
  lemma {:induction false} SameSize(m: map<Key, Val>, rmap: seq<Node>)
    requires Inverse(m, rmap)
    ensures |m| == |rmap|
    decreases |rmap|
  {
    if rmap == [] {
      assert forall k :: !Points(rmap, k);
      assert forall k :: k !in m.Keys;
      if |m.Keys| > 0 { Ascending.SomeElement(m.Keys); }
    } else {
      var k := rmap[0].k;
      InverseRemoved(m, rmap, 0);
      SameSize(m - {k}, Removed(rmap, 0));
      assert m == (m - {k})[k := m[k]];
    }
  }

  /** What a new key does: it evicts a least entry of those there before exactly when the map reaches its limit. */
  ghost predicate InsertedInto(before: map<Key, Val>, after: map<Key, Val>, nMaxSize: nat, k: Key, v: Val) {
    if k in before then after == before
    else if nMaxSize != 0 && |before| + 1 == nMaxSize then
      exists e :: LeastEntry(before, e) && after == (before - {e})[k := v]
    else after == before[k := v]
  }

  datatype Op = Insert(k: Key, v: Val) | Erase(k: Key) | Update(k: Key, v: Val) | SetMaxSize(s: nat)

  datatype State = State(m: map<Key, Val>, rmap: seq<Node>, nMaxSize: nat)

  class LimitedMap {
    var m: map<Key, Val>
    var rmap: seq<Node>
    var nMaxSize: nat

    ghost predicate Valid()
      reads this
    {
      Inverse(m, rmap)
    }

    ghost function S(): State
      reads this
    {
      State(m, rmap, nMaxSize)
    }

    constructor (nMaxSizeIn: nat)
      ensures Valid() && m == map[] && nMaxSize == nMaxSizeIn
    {
      m, rmap, nMaxSize := map[], [], nMaxSizeIn;
    }

    /** multimap::insert */
    method Index(k: Key, v: Val)
      requires Inverse(m, rmap) && k !in m
      modifies this`rmap
      ensures Inverse(m[k := v], rmap)
    {
      hide Inverse;
      SortedOf(m, rmap);
      var i := 0;
      while i < |rmap| && rmap[i].v <= v
        invariant i <= |rmap| && forall j :: 0 <= j < i ==> rmap[j].v <= v
      {
        i := i + 1;
      }
      InverseInserted(m, rmap, k, v, i);
      rmap := Inserted(rmap, i, Node(v, k));
    }

    /** Searches the nodes with k's value for the one that points to k; it is there, so the search cannot fail. */
    method Locate(k: Key) returns (it: nat)
      requires Valid() && k in m
      ensures it < |rmap| && rmap[it] == Node(m[k], k)
    {
      var v := m[k];
      assert Points(rmap, k);
      ghost var at :| 0 <= at < |rmap| && rmap[at].k == k;
      it := 0;
      while rmap[it].v < v
        invariant it <= at
        decreases at - it
      {
        it := it + 1;
      }
      while rmap[it].k != k
        invariant it <= at
        decreases at - it
      {
        it := it + 1;
      }
    }

    /** Drops the entry that the first node of the index points to. */
    method EvictFirst()
      requires Inverse(m, rmap) && rmap != []
      modifies this`m, this`rmap
      ensures Inverse(m, rmap) && exists e :: LeastEntry(old(m), e) && m == old(m) - {e}
    {
      FirstIsLeast(m, rmap);
      InverseRemoved(m, rmap, 0);
      hide Inverse, LeastEntry;
      assert rmap[1..] == Removed(rmap, 0);
      m := m - {rmap[0].k};
      rmap := rmap[1..];
    }

    /** Evicting from an empty index is undefined: with a limit of one, the map must not be empty. */
    method insert(k: Key, v: Val)
      requires Valid() && (nMaxSize == 1 ==> m != map[])
      modifies this`m, this`rmap
      ensures Valid() && InsertedInto(old(m), m, nMaxSize, k, v)
    {
      if k in m { return; }
      if nMaxSize != 0 && |m| + 1 == nMaxSize {
        SameSize(m, rmap);
        EvictFirst();
      }
      Index(k, v);
      m := m[k := v];
    }

    method erase(k: Key)
      requires Valid()
      modifies this`m, this`rmap
      ensures Valid() && m == old(m) - {k}
    {
      if k !in m { return; }
      var it := Locate(k);
      InverseRemoved(m, rmap, it);
      rmap := Removed(rmap, it);
      m := m - {k};
    }

    method update(k: Key, v: Val)
      requires Valid()
      modifies this`m, this`rmap
      ensures Valid() && m == if k in old(m) then old(m)[k := v] else old(m)
    {
      if k !in m { return; }
      var it := Locate(k);
      InverseRemoved(m, rmap, it);
      ghost var before := m;
      m := m - {k};
      rmap := Removed(rmap, it);
      Index(k, v);
      m := m[k := v];
      assert m == before[k := v];
    }

    /** Evicts least entries down to a new limit; no limit evicts nothing. */
    method max_size(s: nat)
      requires Valid()
      modifies this
      ensures Valid() && nMaxSize == s && KeepsGreatest(old(m), m)
      ensures |m| == if s != 0 && |old(m)| > s then s else |old(m)|
    {
      if s != 0 {
        while |m| > s
          invariant Valid() && KeepsGreatest(old(m), m)
          invariant |m| == |old(m)| || s <= |m| <= |old(m)|
          decreases |m|
        {
          SameSize(m, rmap);
          ghost var before := m;
          EvictFirst();
          ghost var k :| LeastEntry(before, k) && m == before - {k};
          KeepsGreatestStep(old(m), before, k);
        }
      }
      nMaxSize := s;
    }
  }

  /** What is left is part of what was there, and nothing dropped is greater than anything left. */
  ghost predicate KeepsGreatest(before: map<Key, Val>, after: map<Key, Val>) {
    && (forall k :: k in after ==> k in before && before[k] == after[k])
    && (forall k, x :: k in before && k !in after && x in after ==> before[k] <= after[x])
  }

  lemma KeepsGreatestStep(before: map<Key, Val>, m: map<Key, Val>, k: Key)
    requires KeepsGreatest(before, m) && LeastEntry(m, k)
    ensures KeepsGreatest(before, m - {k}) && |m - {k}| == |m| - 1
  {
    KeyDropped(m, k);
  }

  lemma SortedOf(m: map<Key, Val>, rmap: seq<Node>)
    requires Inverse(m, rmap)
    ensures Sorted(rmap)
  {
  }

  /** A new key leaves a map within its limit exactly when the map was below it. Then one entry fewer than the limit
      is kept; at the limit, as max_size leaves it, nothing is evicted any more and every new key is added. */
  lemma WithinLimit(before: map<Key, Val>, after: map<Key, Val>, nMaxSize: nat, k: Key, v: Val)
    requires InsertedInto(before, after, nMaxSize, k, v) && k !in before && nMaxSize != 0
    ensures |after| <= nMaxSize <==> |before| < nMaxSize
    ensures |before| < nMaxSize ==> |after| < nMaxSize
    ensures |before| >= nMaxSize ==> after == before[k := v]
  {
    KeyAdded(before, k, v);
    if |before| + 1 == nMaxSize {
      var e :| LeastEntry(before, e) && after == (before - {e})[k := v];
      KeyDropped(before, e);
      KeyAdded(before - {e}, k, v);
    }
  }

  /** One eviction keeps the entries with the highest values exactly when the new value is not below that of the evicted
      entry: a new key is never itself evicted, however small its value. */
  lemma EvictionKeepsHighest(before: map<Key, Val>, e: Key, k: Key, v: Val)
    requires LeastEntry(before, e) && k !in before
    ensures KeepsGreatest(before[k := v], (before - {e})[k := v]) <==> before[e] <= v
  {
    var all, after := before[k := v], (before - {e})[k := v];
    assert e in all && e !in after && k in after && all[e] == before[e] && after[k] == v;
  }

  /** After a new key the map is within its limit and holds the entries with the highest values exactly when it was
      below the limit, and the new value not below a least one if the limit was reached. It then holds as many of them
      as the
      limit allows exactly when the limit was not reached. */
  lemma HighestKept(before: map<Key, Val>, after: map<Key, Val>, nMaxSize: nat, k: Key, v: Val)
    requires InsertedInto(before, after, nMaxSize, k, v) && k !in before && nMaxSize != 0
    ensures |after| <= nMaxSize && KeepsGreatest(before[k := v], after) <==>
      |before| < nMaxSize && (|before| + 1 == nMaxSize ==> LeastAtMost(before, v))
    ensures |after| == Lesser(|before| + 1, nMaxSize) && KeepsGreatest(before[k := v], after) <==>
      |before| + 1 < nMaxSize
  {
    WithinLimit(before, after, nMaxSize, k, v);
    KeyAdded(before, k, v);
    if |before| + 1 == nMaxSize {
      hide LeastEntry, KeepsGreatest;
      var e :| LeastEntry(before, e) && after == (before - {e})[k := v];
      EvictionKeepsHighest(before, e, k, v);
      LeastAlike(before, e, v);
    }
  }

  function Lesser(a: nat, b: nat): nat {
    if a < b then a else b
  }

  /** The least value is at most v. */
  ghost predicate LeastAtMost(m: map<Key, Val>, v: Val) {
    exists e :: LeastEntry(m, e) && m[e] <= v
  }

  lemma LeastAlike(m: map<Key, Val>, e: Key, v: Val)
    requires LeastEntry(m, e)
    ensures LeastAtMost(m, v) <==> m[e] <= v
  {
  }

  /** The two differ: a limit of three keeps the new value 0 and drops 5. */
  lemma LowValueKept()
    ensures var before: map<Key, Val> := map[1 := 5, 2 := 6];
      var after: map<Key, Val> := map[2 := 6, 3 := 0];
      InsertedInto(before, after, 3, 3, 0) && !KeepsGreatest(before[3 := 0], after)
  {
    var before: map<Key, Val> := map[1 := 5, 2 := 6];
    var after: map<Key, Val> := map[2 := 6, 3 := 0];
    assert before.Keys == {1, 2};
    assert LeastEntry(before, 1);
    assert after == (before - {1})[3 := 0];
    EvictionKeepsHighest(before, 1, 3, 0);
  }

  lemma KeyAdded(m: map<Key, Val>, k: Key, v: Val)
    requires k !in m
    ensures |m[k := v]| == |m| + 1
  {
    assert m[k := v].Keys == m.Keys + {k};
  }

  lemma KeyDropped(m: map<Key, Val>, k: Key)
    requires k in m
    ensures |m - {k}| == |m| - 1
  {
    assert m.Keys == (m - {k}).Keys + {k};
  }

  /** A new key evicts from an empty index exactly in an empty map with a limit of one. */
  lemma EvictsFromNothing(m: map<Key, Val>, rmap: seq<Node>, nMaxSize: nat)
    requires Inverse(m, rmap)
    ensures (nMaxSize != 0 && |m| + 1 == nMaxSize && rmap == []) <==> (nMaxSize == 1 && m == map[])
  {
    SameSize(m, rmap);
  }

  // ---------------------------------------------------------------- whole runs

  /** What an operation may do to map and limit. */
  ghost predicate Stepped(s: State, op: Op, t: State) {
    match op
    case Insert(k, v) => t.nMaxSize == s.nMaxSize && InsertedInto(s.m, t.m, s.nMaxSize, k, v)
    case Erase(k) => t.nMaxSize == s.nMaxSize && t.m == s.m - {k}
    case Update(k, v) => t.nMaxSize == s.nMaxSize && t.m == if k in s.m then s.m[k := v] else s.m
    case SetMaxSize(n) =>
      t.nMaxSize == n && KeepsGreatest(s.m, t.m) && |t.m| == if n != 0 && |s.m| > n then n else |s.m|
  }

  /** The states before each operation of a run and after the last, all with an exact index. */
  ghost predicate History(s: State, ops: seq<Op>, states: seq<State>) {
    && |states| == |ops| + 1 && states[0] == s
    && (forall i :: 0 <= i <= |ops| ==> Inverse(states[i].m, states[i].rmap))
    && (forall i :: 0 <= i < |ops| ==> Stepped(states[i], ops[i], states[i + 1]))
  }

  /** A new limit in a run only evicts: what stays is unchanged, and nothing that stays is less than anything evicted.
      */
  lemma LimitApplied(s: State, ops: seq<Op>, states: seq<State>, i: nat, k: Key, x: Key)
    requires History(s, ops, states) && i < |ops| && ops[i].SetMaxSize? && x in states[i + 1].m
    ensures x in states[i].m && states[i + 1].m[x] == states[i].m[x] && states[i + 1].nMaxSize == ops[i].s
    ensures k in states[i].m && k !in states[i + 1].m ==> states[i].m[k] <= states[i].m[x]
  {
    hide Inverse;
    assert Stepped(states[i], ops[i], states[i + 1]);
  }

  lemma HistoryNext(s: State, ops: seq<Op>, states: seq<State>, op: Op, t: State)
    requires History(s, ops, states) && Stepped(states[|ops|], op, t) && Inverse(t.m, t.rmap)
    ensures History(s, ops + [op], states + [t])
  {
    hide Inverse, Stepped;
  }

  method Perform(lm: LimitedMap, op: Op)
    requires lm.Valid() && (op.Insert? && lm.nMaxSize == 1 ==> lm.m != map[])
    modifies lm
    ensures lm.Valid() && Stepped(old(lm.S()), op, lm.S())
  {
    hide Inverse, InsertedInto, KeepsGreatest;
    match op
    case Insert(k, v) => lm.insert(k, v);
    case Erase(k) => lm.erase(k);
    case Update(k, v) => lm.update(k, v);
    case SetMaxSize(s) => lm.max_size(s);
  }

  /** Any run with no limit of one; the ghost result is its history. */
  method Run(lm: LimitedMap, ops: seq<Op>) returns (ghost states: seq<State>)
    requires lm.Valid() && lm.nMaxSize != 1
    requires forall i :: 0 <= i < |ops| && ops[i].SetMaxSize? ==> ops[i].s != 1
    modifies lm
    ensures History(old(lm.S()), ops, states) && lm.S() == states[|ops|]
    ensures lm.Valid() && |lm.m| == |lm.rmap|
  {
    hide Inverse, Stepped, History;
    states := [lm.S()];
    HistoryStarts(lm.S());
    for i := 0 to |ops|
      invariant lm.Valid() && lm.nMaxSize != 1 && |states| == i + 1 && lm.S() == states[i]
      invariant History(old(lm.S()), ops[..i], states)
    {
      ghost var s := lm.S();
      Perform(lm, ops[i]);
      LimitKept(s, ops[i], lm.S());
      HistoryNext(old(lm.S()), ops[..i], states, ops[i], lm.S());
      assert ops[..i + 1] == ops[..i] + [ops[i]];
      states := states + [lm.S()];
    }
    assert ops[..|ops|] == ops;
    SameSize(lm.m, lm.rmap);
  }

  lemma HistoryStarts(s: State)
    requires Inverse(s.m, s.rmap)
    ensures History(s, [], [s])
  {
  }

  lemma LimitKept(s: State, op: Op, t: State)
    requires Stepped(s, op, t)
    ensures t.nMaxSize == if op.SetMaxSize? then op.s else s.nMaxSize
  {
  }

  /** Without a change of limit, a map below its limit stays below it in every run. */
  lemma {:induction false} StaysBelow(s: State, ops: seq<Op>, states: seq<State>, n: nat)
    requires History(s, ops, states) && n <= |ops| && forall i :: 0 <= i < n ==> !ops[i].SetMaxSize?
    requires |s.m| < s.nMaxSize
    ensures states[n].nMaxSize == s.nMaxSize && |states[n].m| < s.nMaxSize
  {
    hide Inverse, Stepped;
    if n > 0 {
      StaysBelow(s, ops, states, n - 1);
      StepBelow(states[n - 1], ops[n - 1], states[n]);
    }
  }

  lemma StepBelow(s: State, op: Op, t: State)
    requires Stepped(s, op, t) && !op.SetMaxSize? && |s.m| < s.nMaxSize
    ensures t.nMaxSize == s.nMaxSize && |t.m| < s.nMaxSize
  {
    match op
    case Insert(k, v) =>
      if k !in s.m { WithinLimit(s.m, t.m, s.nMaxSize, k, v); }
    case Erase(k) =>
      if k in s.m { KeyDropped(s.m, k); } else { assert t.m == s.m; }
    case Update(k, v) =>
      assert k in s.m ==> t.m.Keys == s.m.Keys;
      assert |t.m| == |t.m.Keys| && |s.m| == |s.m.Keys|;
    case _ =>
  }

  /** All operations insert, each a key that neither the map nor an operation before has. */
  ghost predicate NewKeys(m: map<Key, Val>, ops: seq<Op>) {
    && (forall i :: 0 <= i < |ops| ==> ops[i].Insert? && ops[i].k !in m)
    && (forall i, j :: 0 <= i < j < |ops| ==> ops[i].k != ops[j].k)
  }

  /** A map at its limit or above grows without bound: every new key adds an entry, in runs of any length. */
  lemma {:induction false} GrowsWithoutBound(s: State, ops: seq<Op>, states: seq<State>, n: nat)
    requires History(s, ops, states) && NewKeys(s.m, ops) && n <= |ops| && 0 < s.nMaxSize <= |s.m|
    ensures states[n].nMaxSize == s.nMaxSize && |states[n].m| == |s.m| + n
    ensures forall k :: k in states[n].m ==> k in s.m || exists i :: 0 <= i < n && ops[i].k == k
  {
    hide Inverse;
    if n > 0 {
      GrowsWithoutBound(s, ops, states, n - 1);
      var k, v := ops[n - 1].k, ops[n - 1].v;
      assert Stepped(states[n - 1], ops[n - 1], states[n]);
      assert k !in states[n - 1].m;
      WithinLimit(states[n - 1].m, states[n].m, s.nMaxSize, k, v);
      KeyAdded(states[n - 1].m, k, v);
    }
  }

  /** So a run of new keys stays within the limit exactly if it started below it. */
  lemma RunWithinLimit(s: State, ops: seq<Op>, states: seq<State>, n: nat)
    requires History(s, ops, states) && NewKeys(s.m, ops) && 0 < n <= |ops| && s.nMaxSize != 0
    ensures |states[n].m| <= s.nMaxSize <==> |s.m| < s.nMaxSize
  {
    hide Inverse, Stepped;
    if |s.m| < s.nMaxSize {
      StaysBelow(s, ops, states, n);
    } else {
      GrowsWithoutBound(s, ops, states, n);
    }
  }
}
