/** Walks, reachability and cycles of a finite directed graph given by its successor sets. */
module Graphs {
  import opened Ordering

  // A node outside the map has no successors.
  type Graph<!N> = map<N, set<N>>

  ghost predicate Edge<N>(g: Graph<N>, a: N, b: N) {
    a in g && b in g[a]
  }

  ghost predicate IsWalk<N>(g: Graph<N>, p: seq<N>) {
    && |p| > 0
    && forall i :: 0 <= i < |p| - 1 ==> Edge(g, p[i], p[i + 1])
  }

  ghost predicate WalkBetween<N>(g: Graph<N>, p: seq<N>, a: N, b: N) {
    IsWalk(g, p) && p[0] == a && p[|p| - 1] == b
  }

  ghost predicate Reaches<N(!new)>(g: Graph<N>, a: N, b: N) {
    exists p :: WalkBetween(g, p, a, b)
  }

  // A self-loop is a cycle of length one.
  ghost predicate OnCycle<N(!new)>(g: Graph<N>, c: N) {
    exists p :: WalkBetween(g, p, c, c) && |p| >= 2
  }

  ghost predicate ReachesCycle<N(!new)>(g: Graph<N>, a: N) {
    exists c :: Reaches(g, a, c) && OnCycle(g, c)
  }

  ghost predicate Acyclic<N(!new)>(g: Graph<N>) {
    forall c :: !OnCycle(g, c)
  }

  lemma ReachesSelf<N(!new)>(g: Graph<N>, a: N)
    ensures Reaches(g, a, a)
  {
    assert WalkBetween(g, [a], a, a);
  }

  lemma WalkConcat<N(!new)>(g: Graph<N>, p: seq<N>, q: seq<N>, a: N, b: N, c: N)
    requires WalkBetween(g, p, a, b) && WalkBetween(g, q, b, c)
    ensures WalkBetween(g, p + q[1..], a, c)
  {
  }

  lemma ReachesTransitive<N(!new)>(g: Graph<N>, a: N, b: N, c: N)
    requires Reaches(g, a, b) && Reaches(g, b, c)
    ensures Reaches(g, a, c)
  {
    var p :| WalkBetween(g, p, a, b);
    var q :| WalkBetween(g, q, b, c);
    WalkConcat(g, p, q, a, b, c);
  }

  lemma ReachesEdge<N(!new)>(g: Graph<N>, a: N, b: N)
    requires Edge(g, a, b)
    ensures Reaches(g, a, b)
  {
    assert WalkBetween(g, [a, b], a, b);
  }

  // Anything that holds at the start of a walk and is kept by every edge holds at its end.
  lemma {:induction false} WalkInvariant<N(!new)>(g: Graph<N>, s: set<N>, p: seq<N>)
    requires IsWalk(g, p) && p[0] in s
    requires forall a, b :: a in s && Edge(g, a, b) ==> b in s
    ensures forall i :: 0 <= i < |p| ==> p[i] in s
  {
    if |p| > 1 {
      WalkInvariant(g, s, p[..|p| - 1]);
      assert Edge(g, p[|p| - 2], p[|p| - 1]);
    }
  }

  lemma ReachableStaysInside<N(!new)>(g: Graph<N>, s: set<N>, a: N, b: N)
    requires a in s && Reaches(g, a, b)
    requires forall x, y :: x in s && Edge(g, x, y) ==> y in s
    ensures b in s
  {
    var p :| WalkBetween(g, p, a, b);
    WalkInvariant(g, s, p);
  }

  ghost predicate HasSuccessorIn<N(!new)>(g: Graph<N>, s: set<N>, x: N) {
    exists y :: y in s && Edge(g, x, y)
  }

  // When every node of a finite set keeps a successor in the set, each of them reaches a cycle.
  lemma StuckReachesCycle<N(!new)>(g: Graph<N>, s: set<N>, a: N)
    requires a in s
    requires forall x {:trigger HasSuccessorIn(g, s, x)} :: x in s ==> HasSuccessorIn(g, s, x)
    ensures ReachesCycle(g, a)
  {
    ExtendToCycle(g, s, s - {a}, [a]);
  }

  lemma CloseCycle<N(!new)>(g: Graph<N>, p: seq<N>, i: nat, y: N)
    requires IsWalk(g, p) && i < |p| && p[i] == y && Edge(g, p[|p| - 1], y)
    ensures ReachesCycle(g, p[0])
  {
    assert WalkBetween(g, p[i..] + [y], y, y);
    assert OnCycle(g, y);
    assert WalkBetween(g, p[..i + 1], p[0], y);
    assert Reaches(g, p[0], y);
  }

  // The walk p has used nodes of s; unused are the ones it has not visited.
  lemma {:induction false} ExtendToCycle<N(!new)>(g: Graph<N>, s: set<N>, unused: set<N>, p: seq<N>)
    requires forall x {:trigger HasSuccessorIn(g, s, x)} :: x in s ==> HasSuccessorIn(g, s, x)
    requires IsWalk(g, p)
    requires forall x :: x in s <==> x in p || x in unused
    ensures ReachesCycle(g, p[0])
    decreases unused
  {
    var last := p[|p| - 1];
    assert HasSuccessorIn(g, s, last);
    var y :| y in s && Edge(g, last, y);
    if y in p {
      var i :| 0 <= i < |p| && p[i] == y;
      CloseCycle(g, p, i, y);
    } else {
      ExtendToCycle(g, s, unused - {y}, p + [y]);
    }
  }

  // Successors listed strictly earlier: nothing in the list reaches a cycle.
  ghost predicate SuccessorsFirst<N(!new)>(g: Graph<N>, o: seq<N>) {
    forall i, d :: 0 <= i < |o| && Edge(g, o[i], d) ==> d in o[..i]
  }

  lemma {:induction false} EarlierAlongWalk<N(!new)>(g: Graph<N>, o: seq<N>, p: seq<N>, i: nat) returns (j: nat)
    requires SuccessorsFirst(g, o) && Distinct(o)
    requires IsWalk(g, p) && i < |o| && p[0] == o[i]
    ensures j <= i && o[j] == p[|p| - 1]
    ensures |p| >= 2 ==> j < i
  {
    if |p| == 1 {
      j := i;
    } else {
      assert Edge(g, p[0], p[1]);
      assert p[1] in o[..i];
      var k :| 0 <= k < i && o[k] == p[1];
      j := EarlierAlongWalk(g, o, p[1..], k);
    }
  }

  lemma OrderedReachesNoCycle<N(!new)>(g: Graph<N>, o: seq<N>, a: N)
    requires SuccessorsFirst(g, o) && Distinct(o) && a in o
    ensures !ReachesCycle(g, a)
  {
    var i :| 0 <= i < |o| && o[i] == a;
    forall c | Reaches(g, a, c)
      ensures !OnCycle(g, c)
    {
      var p :| WalkBetween(g, p, a, c);
      var j := EarlierAlongWalk(g, o, p, i);
      forall q | WalkBetween(g, q, c, c)
        ensures |q| < 2
      {
        var k := EarlierAlongWalk(g, o, q, j);
      }
    }
  }
}
