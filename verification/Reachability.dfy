/**
  Directed graphs over package ids, and what it means for one package to reach another.

  Reaching is defined by paths. The searches of the program keep lists of waiting packages instead;
  that they find the same rests on two facts: reaching continues along every edge, and a set that is
  closed under edges holds everything its members reach. They end because the packages seen are
  nodes of a finite graph.
 */
module Reachability {
  type Id = string

  /** The successors of each node; a node without an entry has none. */
  type Graph = map<Id, seq<Id>>

  predicate Step(g: Graph, a: Id, b: Id) { a in g && b in g[a] }

  ghost predicate IsPath(g: Graph, p: seq<Id>) {
    p != [] && forall i :: 0 <= i < |p| - 1 ==> Step(g, p[i], p[i + 1])
  }

  ghost predicate Joins(g: Graph, p: seq<Id>, a: Id, b: Id) { IsPath(g, p) && p[0] == a && p[|p| - 1] == b }

  /** There is a path from a to b, possibly of length zero. */
  ghost predicate Reaches(g: Graph, a: Id, b: Id) { exists p :: Joins(g, p, a, b) }

  ghost predicate ReachedFrom(g: Graph, sources: set<Id>, b: Id) { exists a :: a in sources && Reaches(g, a, b) }

  lemma ReachesItself(g: Graph, a: Id)
    ensures Reaches(g, a, a)
  {
    assert Joins(g, [a], a, a);
  }

  lemma ReachesNext(g: Graph, a: Id, b: Id, c: Id)
    requires Reaches(g, a, b) && Step(g, b, c)
    ensures Reaches(g, a, c)
  {
    hide Step;
    var p :| Joins(g, p, a, b);
    var q := p + [c];
    forall i | 0 <= i < |q| - 1 ensures Step(g, q[i], q[i + 1]) {
      if i == |p| - 1 { assert q[i] == b; } else { assert Step(g, p[i], p[i + 1]); }
    }
    assert Joins(g, q, a, c);
  }

  ghost predicate Closed(g: Graph, s: set<Id>) { forall a, b :: a in s && Step(g, a, b) ==> b in s }

  lemma {:induction false} PathStaysInClosed(g: Graph, s: set<Id>, p: seq<Id>)
    requires Closed(g, s) && IsPath(g, p) && p[0] in s
    ensures p[|p| - 1] in s
    decreases |p|
  {
    if |p| > 1 {
      assert Step(g, p[0], p[1]);
      PathStaysInClosed(g, s, p[1..]);
    }
  }

  /** A closed set holds everything its members reach. */
  lemma ClosedHoldsReach(g: Graph, s: set<Id>, a: Id, b: Id)
    requires Closed(g, s) && a in s && Reaches(g, a, b)
    ensures b in s
  {
    var p :| Joins(g, p, a, b);
    PathStaysInClosed(g, s, p);
  }

  /** Every node of the graph; the bound that makes the worklists terminate. */
  ghost function Nodes(g: Graph): set<Id> { g.Keys + set a, b | a in g && b in g[a] :: b }

  lemma StepStaysInNodes(g: Graph, a: Id, b: Id)
    requires Step(g, a, b)
    ensures b in Nodes(g)
  {
  }

  lemma FewerLeft(all: set<Id>, seen: set<Id>, x: Id)
    requires x in all && x !in seen
    ensures |all - (seen + {x})| < |all - seen|
  {
    assert all - seen == (all - (seen + {x})) + {x};
  }

  lemma {:induction false} SubsetSize<T>(a: set<T>, b: set<T>)
    requires a <= b
    ensures |a| <= |b|
  {
    if a != {} {
      var x :| x in a;
      SubsetSize(a - {x}, b - {x});
    }
  }

  /** The measure of a worklist that has seen more. */
  lemma Shrinks(all: set<Id>, a: set<Id>, b: set<Id>)
    requires a < b <= all
    ensures |all - b| < |all - a|
  {
    var x :| x in b && x !in a;
    FewerLeft(all, a, x);
    SubsetSize(all - b, all - (a + {x}));
  }
}
