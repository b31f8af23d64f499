/** Ascending listings of finite sets of integers: what ORDER BY returns for distinct keys. Every finite set has
    one such listing. Adding an element to the set inserts it into the listing at one place and moves nothing else,
    which is how the roll-up of a group of rows follows the insertion of a row; an element that is listed is listed
    at one place, which is how it follows the update of one. The first and the last element are the least and the
    greatest. */
module SortedSets {

  lemma EmptyOrInhabited(s: set<int>)
    ensures s == {} || exists y :: y in s
  {
    if forall y :: y !in s {
      assert s == {};
    }
  }

  lemma {:induction false} MaxExists(s: set<int>)
    requires s != {}
    ensures exists m :: m in s && forall x :: x in s ==> x <= m
  {
    EmptyOrInhabited(s);
    var y :| y in s;
    if s == {y} {
      assert forall x :: x in s ==> x <= y;
    } else {
      MaxExists(s - {y});
      var m :| m in s - {y} && forall x :: x in s - {y} ==> x <= m;
      GreaterOf(s, y, m);
    }
  }

  lemma GreaterOf(s: set<int>, y: int, m: int)
    requires y in s && m in s && forall x :: x in s - {y} ==> x <= m
    ensures exists n :: n in s && forall x :: x in s ==> x <= n
  {
    var n := if m < y then y else m;
    assert forall x :: x in s ==> x in s - {y} || x == y;
    assert forall x :: x in s ==> x <= n;
  }

  ghost function Max(s: set<int>): (m: int)
    requires s != {}
    ensures m in s && forall x :: x in s ==> x <= m
  {
    MaxExists(s);
    var m :| m in s && forall x :: x in s ==> x <= m;
    m
  }

  ghost predicate Ascending(l: seq<int>) {
    forall i, j :: 0 <= i < j < |l| ==> l[i] < l[j]
  }

  ghost function Sorted(s: set<int>): (l: seq<int>)
    ensures |l| == |s|
    ensures Ascending(l)
    ensures forall x :: x in l <==> x in s
  {
    if s == {} then [] else
    var m := Max(s);
    var rest := Sorted(s - {m});
    rest + [m]
  }

  /** An ascending listing is determined by its elements. */
  lemma {:induction false} SortedUnique(s: set<int>, l: seq<int>)
    requires Ascending(l) && forall x :: x in l <==> x in s
    ensures l == Sorted(s)
    decreases |l|
  {
    var k := |l| - 1;
    if k < 0 {
      assert s == {};
    } else {
      var m, t := l[k], l[..k];
      assert m in l;
      assert l == t + [m];
      assert Max(s) == m by {
        var x := Max(s);
        assert x in l;
      }
      SortedUnique(s - {m}, t);
    }
  }

  /** Where x goes when it joins the listing. */
  lemma SortedInsert(s: set<int>, x: int) returns (k: nat)
    requires x !in s
    ensures k <= |Sorted(s)|
    ensures Sorted(s + {x}) == Sorted(s)[..k] + [x] + Sorted(s)[k..]
    ensures (forall y :: y in s ==> y < x) ==> k == |Sorted(s)|
  {
    var l := Sorted(s);
    k := 0;
    while k < |l| && l[k] < x
      invariant k <= |l|
      invariant forall i :: 0 <= i < k ==> l[i] < x
    {
      k := k + 1;
    }
    var n := l[..k] + [x] + l[k..];
    assert k < |l| ==> l[k] in l && l[k] in s;
    InsertAscending(l, k, x);
    InsertMembers(l, k, x);
    SortedUnique(s + {x}, n);
  }

  lemma InsertMembers(l: seq<int>, k: nat, x: int)
    requires k <= |l|
    ensures forall y :: y in l[..k] + [x] + l[k..] <==> y in l || y == x
  {
    assert l == l[..k] + l[k..];
  }

  lemma InsertAscending(l: seq<int>, k: nat, x: int)
    requires Ascending(l) && k <= |l| && x !in l
    requires forall i :: 0 <= i < k ==> l[i] < x
    requires k < |l| ==> x < l[k]
    ensures Ascending(l[..k] + [x] + l[k..])
  {
  }

  lemma Position(s: set<int>, x: int) returns (k: nat)
    requires x in s
    ensures k < |Sorted(s)| && Sorted(s)[k] == x
    ensures (forall y :: y in s ==> y <= x) ==> k == |Sorted(s)| - 1
  {
    var l := Sorted(s);
    assert x in l;
    k :| 0 <= k < |l| && l[k] == x;
    assert l[|l| - 1] in l;
  }
}
