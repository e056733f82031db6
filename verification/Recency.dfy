/** Moving an element to the end of a list each time it is visited keeps the list in the order of the last visits. */
module Recency {
  import opened Collections

  function IndexOf<T(==)>(q: seq<T>, b: T): (i: nat)
    requires b in q
    ensures i < |q| && q[i] == b && forall j | 0 <= j < i :: q[j] != b
  {
    if q[0] == b then 0 else 1 + IndexOf(q[1..], b)
  }

  /** A visit; an element that is not there changes nothing. */
  function MoveToEnd<T(==)>(q: seq<T>, b: T): (r: seq<T>)
    ensures |r| == |q|
  {
    if b in q then RemoveAt(q, IndexOf(q, b)) + [b] else q
  }

  function AfterVisits<T(==)>(q: seq<T>, visits: seq<T>): (r: seq<T>)
    ensures |r| == |q|
  {
    if visits == [] then q else MoveToEnd(AfterVisits(q, visits[..|visits| - 1]), visits[|visits| - 1])
  }

  lemma RemovedAt<T>(q: seq<T>, i: nat, k: nat)
    requires i < |q| && k < |q| - 1
    ensures RemoveAt(q, i)[k] == if k < i then q[k] else q[k + 1]
  {}

  lemma SameElements<T>(q: seq<T>, b: T)
    ensures multiset(MoveToEnd(q, b)) == multiset(q)
  {
    if b in q {
      var i := IndexOf(q, b);
      assert q == q[..i] + [q[i]] + q[i + 1..];
    }
  }

  lemma {:induction false} StillPermutation<T>(q: seq<T>, visits: seq<T>)
    ensures multiset(AfterVisits(q, visits)) == multiset(q)
  {
    if visits != [] {
      StillPermutation(q, visits[..|visits| - 1]);
      SameElements(AfterVisits(q, visits[..|visits| - 1]), visits[|visits| - 1]);
    }
  }

  /** When an element was last visited; before the first visit, its place in the beginning. */
  function Rank<T(==)>(q: seq<T>, visits: seq<T>, b: T): nat
    requires b in q
    decreases |visits|
  {
    if visits == [] then IndexOf(q, b)
    else if visits[|visits| - 1] == b then |q| + |visits| - 1
    else Rank(q, visits[..|visits| - 1], b)
  }

  lemma {:induction false} RankBound<T>(q: seq<T>, visits: seq<T>, b: T)
    requires b in q
    ensures Rank(q, visits, b) < |q| + |visits|
    decreases |visits|
  {
    if visits != [] {
      RankBound(q, visits[..|visits| - 1], b);
    }
  }

  /** Ranks rise along the queue. */
  ghost predicate ByRank<T>(r: seq<T>, q: seq<T>, visits: seq<T>) {
    && (forall b | b in r :: b in q)
    && (forall i, j | 0 <= i < j < |r| :: Rank(q, visits, r[i]) < Rank(q, visits, r[j]))
  }

  lemma {:induction false} OrderedByLastVisit<T>(q: seq<T>, visits: seq<T>)
    requires Distinct(q)
    ensures ByRank(AfterVisits(q, visits), q, visits)
    decreases |visits|
  {
    if visits == [] {
      forall i, j | 0 <= i < j < |q| ensures Rank(q, visits, q[i]) < Rank(q, visits, q[j]) {
        FirstPlace(q, i);
        FirstPlace(q, j);
      }
    } else {
      var earlier, b := visits[..|visits| - 1], visits[|visits| - 1];
      OrderedByLastVisit(q, earlier);
      VisitKeepsOrder(AfterVisits(q, earlier), q, visits);
    }
  }

  lemma FirstPlace<T>(q: seq<T>, i: nat)
    requires Distinct(q) && i < |q|
    ensures IndexOf(q, q[i]) == i
  {}

  lemma VisitKeepsOrder<T>(r: seq<T>, q: seq<T>, visits: seq<T>)
    requires visits != [] && ByRank(r, q, visits[..|visits| - 1])
    ensures ByRank(MoveToEnd(r, visits[|visits| - 1]), q, visits)
  {
    var b := visits[|visits| - 1];
    var s := MoveToEnd(r, b);
    forall c | c in s ensures c in q {
      var k :| 0 <= k < |s| && s[k] == c;
      Came(r, b, k);
    }
    forall i, j | 0 <= i < j < |s| ensures Rank(q, visits, s[i]) < Rank(q, visits, s[j]) {
      Came(r, b, i);
      Came(r, b, j);
      RankBound(q, visits[..|visits| - 1], s[i]);
    }
  }

  /** Where the k-th element was before the visit. */
  lemma Came<T>(r: seq<T>, b: T, k: nat)
    requires k < |r|
    ensures b !in r ==> MoveToEnd(r, b) == r
    ensures b in r ==> MoveToEnd(r, b)[k] == if k == |r| - 1 then b else if k < IndexOf(r, b) then r[k] else r[k + 1]
    ensures MoveToEnd(r, b)[k] in r
  {
    if b in r && k < |r| - 1 { RemovedAt(r, IndexOf(r, b), k); }
  }
}
