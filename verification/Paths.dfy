/** Paths and reachability in a finite directed graph, given here by its map of adjacent nodes. */
module Paths {

  type Graph<T> = map<T, set<T>>

  /** The targets of a node; a node that is not a key has none. */
  function Succ<T>(g: Graph<T>, n: T): set<T> {
    if n in g then g[n] else {}
  }

  ghost predicate IsPath<T>(g: Graph<T>, p: seq<T>) {
    && p != []
    && forall i, j :: 0 <= i && j == i + 1 < |p| ==> p[j] in Succ(g, p[i])
  }

  ghost predicate PathFromTo<T>(g: Graph<T>, p: seq<T>, a: T, b: T) {
    IsPath(g, p) && p[0] == a && p[|p| - 1] == b
  }

  ghost predicate Reaches<T(!new)>(g: Graph<T>, a: T, b: T) {
    exists p: seq<T> :: PathFromTo(g, p, a, b)
  }

  lemma ReachRefl<T(!new)>(g: Graph<T>, a: T)
    ensures Reaches(g, a, a)
  {
    assert PathFromTo(g, [a], a, a);
  }

  lemma ReachEdge<T(!new)>(g: Graph<T>, a: T, b: T)
    requires b in Succ(g, a)
    ensures Reaches(g, a, b)
  {
    assert PathFromTo(g, [a, b], a, b);
  }

  lemma ReachTrans<T(!new)>(g: Graph<T>, a: T, b: T, c: T)
    requires Reaches(g, a, b) && Reaches(g, b, c)
    ensures Reaches(g, a, c)
  {
    var p: seq<T> :| PathFromTo(g, p, a, b);
    var q: seq<T> :| PathFromTo(g, q, b, c);
    var r := p + q[1..];
    forall i, j | 0 <= i && j == i + 1 < |r| ensures r[j] in Succ(g, r[i]) {
      if i < |p| - 1 {
        assert r[i] == p[i] && r[i + 1] == p[i + 1];
      } else {
        assert r[i] == q[i - |p| + 1] && r[i + 1] == q[i - |p| + 2];
      }
    }
    assert PathFromTo(g, r, a, c);
  }

  /** Every node on a path is reachable from its start and reaches its end. */
  lemma ReachAlong<T(!new)>(g: Graph<T>, p: seq<T>, i: nat)
    requires IsPath(g, p) && i < |p|
    ensures Reaches(g, p[0], p[i]) && Reaches(g, p[i], p[|p| - 1])
  {
    assert PathFromTo(g, p[..i + 1], p[0], p[i]);
    assert PathFromTo(g, p[i..], p[i], p[|p| - 1]);
  }

  /** A path that starts inside a set and ends outside it crosses its border on some edge. */
  lemma Crossing<T>(g: Graph<T>, p: seq<T>, inside: set<T>) returns (i: nat)
    requires IsPath(g, p) && p[0] in inside && p[|p| - 1] !in inside
    ensures i < |p| - 1 && p[i] in inside && p[i + 1] !in inside
  {
    i := 0;
    while p[i + 1] in inside
      invariant i < |p| - 1 && p[i] in inside
      decreases |p| - i
    {
      i := i + 1;
    }
  }

  /** A set that contains its own targets contains everything reachable from it. */
  lemma ClosedContainsReachable<T(!new)>(g: Graph<T>, closed: set<T>, a: T, b: T)
    requires forall x :: x in closed ==> Succ(g, x) <= closed
    requires a in closed && Reaches(g, a, b)
    ensures b in closed
  {
    var p: seq<T> :| PathFromTo(g, p, a, b);
    if b !in closed {
      var i := Crossing(g, p, closed);
    }
  }
}
