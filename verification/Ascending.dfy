/** Ascending lists of finite sets: the meaning of `ORDER BY` over a key column. */
module Ascending {

  ghost predicate IsLeast(m: nat, s: set<nat>) {
    m in s && forall x :: x in s ==> m <= x
  }

  lemma {:induction false} MinExists(s: set<nat>)
    requires s != {}
    ensures exists m :: IsLeast(m, s)
  {
    var y :| y in s;
    if s == {y} {
      assert IsLeast(y, s);
    } else {
      var rest := s - {y};
      assert s == rest + {y};
      MinExists(rest);
      var m :| IsLeast(m, rest);
      assert IsLeast(if y < m then y else m, s);
    }
  }

  function Min(s: set<nat>): (m: nat)
    requires s != {}
    ensures m in s && forall x :: x in s ==> m <= x
  {
    MinExists(s);
    var m :| m in s && forall x :: x in s ==> m <= x;
    m
  }

  ghost predicate Increasing(l: seq<nat>) {
    forall i, j :: 0 <= i < j < |l| ==> l[i] < l[j]
  }

  function Sorted(s: set<nat>): (l: seq<nat>)
    ensures forall x :: x in l <==> x in s
    ensures Increasing(l)
  {
    if s == {} then [] else
      var m := Min(s);
      var rest := Sorted(s - {m});
      assert forall x :: x in [m] + rest <==> x == m || x in rest;
      [m] + rest
  }

  /** `Sorted(s)` is the only increasing list of the members of `s`. */
  lemma {:induction false} SortedIsUnique(l: seq<nat>, s: set<nat>)
    requires Increasing(l)
    requires forall x :: x in l <==> x in s
    ensures l == Sorted(s)
    decreases |l|
  {
    if l == [] {
      assert s == {};
    } else {
      assert l[0] in l;
      assert l[0] in s;
      assert Min(s) == l[0];
      var rest := s - {l[0]};
      forall x ensures x in l[1..] <==> x in rest {
        assert x in l <==> x == l[0] || x in l[1..];
      }
      SortedIsUnique(l[1..], rest);
      assert l == [l[0]] + l[1..];
    }
  }
}
