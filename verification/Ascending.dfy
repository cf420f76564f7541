/** The order in which a std::set or std::map of integers is walked. */
module Ascending {

  ghost predicate IsLeast(m: int, s: set<int>) {
    m in s && forall x :: x in s ==> m <= x
  }

  lemma SomeElement(s: set<int>)
    requires |s| > 0
    ensures exists x :: x in s
  {
    if forall x :: x !in s { assert false; }
  }

  lemma LeastExists(s: set<int>)
    requires |s| > 0
    ensures exists m :: IsLeast(m, s)
    decreases |s|
  {
    SomeElement(s);
    var a :| a in s;
    var r := s - {a};
    if |r| == 0 {
      assert s == {a} + r;
      assert IsLeast(a, s);
    } else {
      LeastExists(r);
      var m :| IsLeast(m, r);
      assert IsLeast(if a < m then a else m, s);
    }
  }

  ghost predicate Lists(r: seq<int>, s: set<int>) {
    && |r| == |s|
    && (forall x :: x in r <==> x in s)
    && (forall i, j :: 0 <= i < j < |r| ==> r[i] < r[j])
  }

  lemma ListsCons(m: int, r: seq<int>, s: set<int>)
    requires IsLeast(m, s) && Lists(r, s - {m})
    ensures Lists([m] + r, s)
  {
    var l := [m] + r;
    forall x ensures x in l <==> x in s {
      assert x in l <==> x == m || x in r;
    }
    forall i, j | 0 <= i < j < |l| ensures l[i] < l[j] {
      assert l[j] == r[j - 1] && r[j - 1] in r;
      if i > 0 { assert l[i] == r[i - 1]; }
    }
  }

  /** The elements of a set, in ascending order. */
  function Sequence(s: set<int>): (r: seq<int>)
    ensures Lists(r, s)
    decreases |s|
  {
    if |s| == 0 then []
    else
      LeastExists(s);
      var m :| m in s && forall x :: x in s ==> m <= x;
      assert IsLeast(m, s);
      var r := Sequence(s - {m});
      ListsCons(m, r, s);
      [m] + r
  }
}
