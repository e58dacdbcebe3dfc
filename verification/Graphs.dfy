/** Directed graphs given by successor lists, and walks through them. */
module Graphs {

  type Id = string
  type Graph = map<Id, seq<Id>>

  /** `edges.get(x, ())`: a node without an entry has no successors. */
  function Succ(g: Graph, x: Id): seq<Id> {
    if x in g then g[x] else []
  }

  /** Every node a graph mentions, as a source or as a target. */
  function Nodes(g: Graph): set<Id> {
    g.Keys + set x, y | x in g && y in g[x] :: y
  }

  /** A walk lists at least one node and follows an edge at each step. */
  ghost predicate IsWalk(g: Graph, p: seq<Id>) {
    |p| > 0 && forall i :: 0 <= i < |p| - 1 ==> p[i + 1] in Succ(g, p[i])
  }

  ghost predicate WalkBetween(g: Graph, a: Id, b: Id, p: seq<Id>) {
    IsWalk(g, p) && p[0] == a && p[|p| - 1] == b
  }

  /** Reachability is reflexive: the one-node walk counts. */
  ghost predicate Reaches(g: Graph, a: Id, b: Id) {
    exists p :: WalkBetween(g, a, b, p)
  }

  /** No walk of at least one edge returns to where it began. */
  ghost predicate Acyclic(g: Graph) {
    forall p :: IsWalk(g, p) && |p| > 1 ==> p[0] != p[|p| - 1]
  }

  ghost predicate Closed(g: Graph, s: set<Id>) {
    forall x, y :: x in s && y in Succ(g, x) ==> y in s
  }

  lemma ReachesSelf(g: Graph, a: Id)
    ensures Reaches(g, a, a)
  {
    assert WalkBetween(g, a, a, [a]);
  }

  lemma JoinWalks(g: Graph, p: seq<Id>, q: seq<Id>)
    requires IsWalk(g, p) && IsWalk(g, q)
    requires q[0] in Succ(g, p[|p| - 1])
    ensures IsWalk(g, p + q)
  {
    var r := p + q;
    forall i | 0 <= i < |r| - 1
      ensures r[i + 1] in Succ(g, r[i])
    {
      if i >= |p| {
        assert r[i] == q[i - |p|] && r[i + 1] == q[i - |p| + 1];
      }
    }
  }

  lemma ReachesStep(g: Graph, a: Id, b: Id, c: Id)
    requires Reaches(g, a, b) && c in Succ(g, b)
    ensures Reaches(g, a, c)
  {
    var p :| WalkBetween(g, a, b, p);
    JoinWalks(g, p, [c]);
    assert WalkBetween(g, a, c, p + [c]);
  }

  lemma StepReaches(g: Graph, a: Id, b: Id, c: Id)
    requires b in Succ(g, a) && Reaches(g, b, c)
    ensures Reaches(g, a, c)
  {
    var p :| WalkBetween(g, b, c, p);
    JoinWalks(g, [a], p);
    assert WalkBetween(g, a, c, [a] + p);
  }

  lemma WalkTail(g: Graph, p: seq<Id>)
    requires IsWalk(g, p) && |p| > 1
    ensures p[1] in Succ(g, p[0]) && IsWalk(g, p[1..])
  {
    assert p[0 + 1] in Succ(g, p[0]);
    forall i | 0 <= i < |p[1..]| - 1 ensures p[1..][i + 1] in Succ(g, p[1..][i]) {
      assert p[i + 1 + 1] in Succ(g, p[i + 1]);
    }
  }

  /** A closed set holds every node that its members reach. */
  lemma {:induction false} ClosedHoldsWalk(g: Graph, s: set<Id>, p: seq<Id>)
    requires Closed(g, s) && IsWalk(g, p) && p[0] in s
    ensures p[|p| - 1] in s
  {
    if |p| > 1 {
      WalkTail(g, p);
      ClosedHoldsWalk(g, s, p[1..]);
    }
  }

  lemma ClosedHoldsReachable(g: Graph, s: set<Id>, a: Id)
    requires Closed(g, s) && a in s
    ensures forall b :: Reaches(g, a, b) ==> b in s
  {
    forall b | Reaches(g, a, b) ensures b in s {
      var p :| WalkBetween(g, a, b, p);
      ClosedHoldsWalk(g, s, p);
    }
  }

  lemma SmallerSet<T>(a: set<T>, b: set<T>)
    requires a < b
    ensures |a| < |b|
  {
    var x :| x in b && x !in a;
    SubsetSize(a, b - {x});
  }

  lemma {:induction false} SubsetSize<T>(a: set<T>, b: set<T>)
    requires a <= b
    ensures |a| <= |b|
  {
    if a != {} {
      var x :| x in a;
      SubsetSize(a - {x}, b - {x});
    }
  }
}
