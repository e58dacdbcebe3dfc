/**
  The bounded depth-first path listing behind the authorised snapshot's edge
  conditions (`authorized_card_snapshot.py`).
*/
module PathNodes {
  import opened Graphs
  import opened Sequences

  const MAX_PATH_DEPTH: nat := 32

  // ----- Depth-first preorder, without bounds -----

  /** Visits the listed nodes one after the other, each with all that follows from it, unless seen. */
  function Visit(g: Graph, xs: seq<Id>, seen: seq<Id>): (r: seq<Id>)
    ensures seen <= r
    decreases Nodes(g) - Members(seen), |xs|
  {
    if xs == [] then seen
    else if xs[0] in seen then Visit(g, xs[1..], seen)
    else
      MembersSnoc(seen, xs[0]);
      var inner := Visit(g, Succ(g, xs[0]), seen + [xs[0]]);
      MembersGrow(seen, inner);
      Visit(g, xs[1..], inner)
  }

  function Members(s: seq<Id>): set<Id> {
    set x | x in s
  }

  lemma MembersSnoc(s: seq<Id>, x: Id)
    ensures Members(s + [x]) == Members(s) + {x}
  {
  }

  lemma MembersGrow(s: seq<Id>, t: seq<Id>)
    requires s <= t || exists x :: s + [x] <= t
    ensures Members(s) <= Members(t)
  {
    assert s <= t;
    forall x | x in s ensures x in t {
      var i :| 0 <= i < |s| && s[i] == x;
      assert t[i] == x;
    }
  }

  /** Every node that `start` reaches, in the order of a depth-first walk. */
  function Preorder(g: Graph, start: Id): seq<Id> {
    Visit(g, [start], [])
  }

  lemma {:induction false} VisitConcat(g: Graph, a: seq<Id>, b: seq<Id>, seen: seq<Id>)
    ensures Visit(g, a + b, seen) == Visit(g, b, Visit(g, a, seen))
    decreases Nodes(g) - Members(seen), |a|
  {
    if a == [] {
      assert a + b == b;
    } else {
      assert (a + b)[1..] == a[1..] + b && (a + b)[0] == a[0];
      if a[0] in seen {
        VisitConcat(g, a[1..], b, seen);
      } else {
        var inner := Visit(g, Succ(g, a[0]), seen + [a[0]]);
        MembersSnoc(seen, a[0]);
        MembersGrow(seen, inner);
        VisitConcat(g, a[1..], b, inner);
      }
    }
  }

  /** A visit lists each node once, lists what it was asked to, and leaves no new node's successor out. */
  lemma {:induction false} VisitIsClosed(g: Graph, xs: seq<Id>, seen: seq<Id>)
    requires Distinct(seen)
    ensures ClosedVisit(g, xs, seen, Visit(g, xs, seen))
    decreases Nodes(g) - Members(seen), |xs|
  {
    if xs != [] {
      assert xs == [xs[0]] + xs[1..];
      if xs[0] in seen {
        VisitIsClosed(g, xs[1..], seen);
        MembersGrow(seen, Visit(g, xs, seen));
      } else {
        var inner := Visit(g, Succ(g, xs[0]), seen + [xs[0]]);
        MembersSnoc(seen, xs[0]);
        MembersGrow(seen, inner);
        VisitIsClosed(g, Succ(g, xs[0]), seen + [xs[0]]);
        VisitIsClosed(g, xs[1..], inner);
        InnerIsClosed(g, xs, seen, inner, Visit(g, xs[1..], inner));
      }
    }
  }

  ghost predicate ClosedVisit(g: Graph, xs: seq<Id>, seen: seq<Id>, r: seq<Id>) {
    && Distinct(r) && (forall x :: x in xs ==> x in r)
    && (forall x, y :: x in r && x !in seen && y in Succ(g, x) ==> y in r)
  }

  lemma InnerIsClosed(g: Graph, xs: seq<Id>, seen: seq<Id>, inner: seq<Id>, r: seq<Id>)
    requires xs != [] && seen + [xs[0]] <= inner <= r
    requires ClosedVisit(g, Succ(g, xs[0]), seen + [xs[0]], inner) && ClosedVisit(g, xs[1..], inner, r)
    ensures ClosedVisit(g, xs, seen, r)
  {
    MembersGrow(seen + [xs[0]], inner);
    MembersGrow(inner, r);
    assert xs == [xs[0]] + xs[1..];
    assert xs[0] in Members(seen + [xs[0]]);
    assert forall x :: x in inner ==> x in Members(inner);
    forall x, y | x in r && x !in seen && y in Succ(g, x) ensures y in r {
      if x in inner {
        assert x == xs[0] || x !in seen + [xs[0]];
        assert y in inner;
      }
    }
  }

  /** A visit that starts from reachable nodes lists reachable nodes. */
  lemma {:induction false} VisitIsReached(g: Graph, start: Id, xs: seq<Id>, seen: seq<Id>)
    requires forall x :: x in xs || x in seen ==> Reaches(g, start, x)
    ensures forall x :: x in Visit(g, xs, seen) ==> Reaches(g, start, x)
    decreases Nodes(g) - Members(seen), |xs|
  {
    if xs != [] {
      if xs[0] in seen {
        VisitIsReached(g, start, xs[1..], seen);
      } else {
        forall y | y in Succ(g, xs[0]) ensures Reaches(g, start, y) {
          ReachesStep(g, start, xs[0], y);
        }
        MembersSnoc(seen, xs[0]);
        var inner := Visit(g, Succ(g, xs[0]), seen + [xs[0]]);
        MembersGrow(seen, inner);
        VisitIsReached(g, start, Succ(g, xs[0]), seen + [xs[0]]);
        VisitIsReached(g, start, xs[1..], inner);
      }
    }
  }

  /** The preorder starts with its start and lists exactly what that reaches, once each. */
  lemma PreorderIsReachable(g: Graph, start: Id)
    ensures Distinct(Preorder(g, start)) && [start] <= Preorder(g, start)
    ensures forall x :: x in Preorder(g, start) <==> Reaches(g, start, x)
  {
    var r := Preorder(g, start);
    ReachesSelf(g, start);
    VisitIsClosed(g, [start], []);
    VisitIsReached(g, start, [start], []);
    assert Closed(g, Members(r));
    ClosedHoldsReachable(g, Members(r), start);
    VisitFirst(g, start, [], []);
    assert [start] + [] == [start] && [] + [start] == [start];
    assert [start] <= Visit(g, Succ(g, start) + [], [start]);
  }

  // ----- The listing -----

  datatype Frame = Frame(node: Id, depth: nat)

  /** The children pushed for a node: reversed, one level deeper. */
  function Pushed(children: seq<Id>, depth: nat): seq<Frame> {
    if children == [] then [] else Pushed(children[1..], depth) + [Frame(children[0], depth)]
  }

  /** The nodes of a stack, the next one first. */
  function Pending(stack: seq<Frame>): seq<Id> {
    if stack == [] then [] else [stack[|stack| - 1].node] + Pending(stack[..|stack| - 1])
  }

  lemma {:induction false} PendingPushed(rest: seq<Frame>, children: seq<Id>, depth: nat)
    ensures Pending(rest + Pushed(children, depth)) == children + Pending(rest)
  {
    var stack := rest + Pushed(children, depth);
    if children == [] {
      assert stack == rest;
    } else {
      PendingPushed(rest, children[1..], depth);
      assert stack[..|stack| - 1] == rest + Pushed(children[1..], depth);
      assert stack[|stack| - 1] == Frame(children[0], depth);
      assert [children[0]] + (children[1..] + Pending(rest)) == children + Pending(rest);
    }
  }

  lemma {:induction false} PushedDepth(children: seq<Id>, depth: nat)
    ensures forall f :: f in Pushed(children, depth) ==> f.depth == depth
  {
    if children != [] { PushedDepth(children[1..], depth); }
  }

  /** One turn of the loop: what is still to come stays the rest of the visit. */
  lemma VisitTurn(g: Graph, stack: seq<Frame>, ordered: seq<Id>)
    requires stack != []
    ensures var top, rest := stack[|stack| - 1], stack[..|stack| - 1];
            Visit(g, Pending(stack), ordered)
            == if top.node in ordered then Visit(g, Pending(rest), ordered)
               else Visit(g, Pending(rest + Pushed(Succ(g, top.node), top.depth + 1)), ordered + [top.node])
  {
    var top, rest := stack[|stack| - 1], stack[..|stack| - 1];
    VisitFirst(g, top.node, Pending(rest), ordered);
    PendingPushed(rest, Succ(g, top.node), top.depth + 1);
  }

  lemma VisitFirst(g: Graph, x: Id, xs: seq<Id>, seen: seq<Id>)
    ensures Visit(g, [x] + xs, seen)
            == if x in seen then Visit(g, xs, seen) else Visit(g, Succ(g, x) + xs, seen + [x])
  {
    assert ([x] + xs)[1..] == xs && ([x] + xs)[0] == x;
    if x !in seen { VisitConcat(g, Succ(g, x), xs, seen + [x]); }
  }

  /** What the listing knows between two steps. */
  ghost predicate Listing(g: Graph, start: Id, ordered: seq<Id>, stack: seq<Frame>, limited: bool) {
    && |ordered| <= MAX_PATH_DEPTH && ordered <= Preorder(g, start)
    && (forall f :: f in stack ==> f.depth <= |ordered|)
    && (if limited then |ordered| == MAX_PATH_DEPTH else Visit(g, Pending(stack), ordered) == Preorder(g, start))
  }

  lemma ListingSkips(g: Graph, start: Id, ordered: seq<Id>, stack: seq<Frame>, limited: bool)
    requires Listing(g, start, ordered, stack, limited) && stack != [] && stack[|stack| - 1].node in ordered
    ensures Listing(g, start, ordered, stack[..|stack| - 1], limited)
  {
    VisitTurn(g, stack, ordered);
  }

  /** A node listed at the depth bound is the last one that fits; its successors are not pushed. */
  lemma ListingGrows(g: Graph, start: Id, ordered: seq<Id>, stack: seq<Frame>, limited: bool)
    requires Listing(g, start, ordered, stack, limited) && |ordered| < MAX_PATH_DEPTH
    requires stack != [] && stack[|stack| - 1].node !in ordered
    ensures var top, rest := stack[|stack| - 1], stack[..|stack| - 1];
            if top.depth >= MAX_PATH_DEPTH - 1
            then Listing(g, start, ordered + [top.node], rest, limited || Succ(g, top.node) != [])
            else Listing(g, start, ordered + [top.node], rest + Pushed(Succ(g, top.node), top.depth + 1), limited)
  {
    var top, rest := stack[|stack| - 1], stack[..|stack| - 1];
    var next := rest + Pushed(Succ(g, top.node), top.depth + 1);
    assert top in stack;
    VisitTurn(g, stack, ordered);
    assert ordered + [top.node] <= Visit(g, Pending(next), ordered + [top.node]);
    PushedDepth(Succ(g, top.node), top.depth + 1);
    assert forall f :: f in next <==> f in rest || f in Pushed(Succ(g, top.node), top.depth + 1);
    assert forall f :: f in rest ==> f in stack;
    if Succ(g, top.node) == [] { assert next == rest; }
  }

  function UpTo(s: seq<Id>, n: nat): seq<Id> {
    if n < |s| then s[..n] else s
  }

  /**
    Lists the first 32 nodes of the depth-first preorder of what `start` reaches.
    Without `limited` that is all of them; with it, the list is full, so a start
    that reaches fewer than 32 nodes is never cut short.
  */
  method PathNodesFrom(start: Id, graph: Graph) returns (ordered: seq<Id>, limited: bool)
    ensures ordered == UpTo(Preorder(graph, start), 32)
    ensures |ordered| <= 32 && Distinct(ordered) && [start] <= ordered
    ensures forall x :: x in ordered ==> Reaches(graph, start, x)
    ensures !limited ==> ordered == Preorder(graph, start) && forall x :: x in ordered <==> Reaches(graph, start, x)
    ensures limited ==> |ordered| == 32
  {
    PreorderIsReachable(graph, start);
    var stack := [Frame(start, 0)];
    var seen: set<Id> := {};
    ordered, limited := [], false;
    assert Pending(stack) == [start];
    while stack != [] && |ordered| < MAX_PATH_DEPTH
      invariant Listing(graph, start, ordered, stack, limited)
      invariant forall x :: x in seen <==> x in ordered
      decreases MAX_PATH_DEPTH - |ordered|, |stack|
    {
      var top := stack[|stack| - 1];
      if top.node in seen {
        ListingSkips(graph, start, ordered, stack, limited);
        stack := stack[..|stack| - 1];
        continue;
      }
      ListingGrows(graph, start, ordered, stack, limited);
      stack := stack[..|stack| - 1];
      seen := seen + {top.node};
      ordered := ordered + [top.node];
      if top.depth >= MAX_PATH_DEPTH - 1 {
        limited := limited || Succ(graph, top.node) != [];
        continue;
      }
      stack := stack + Pushed(Succ(graph, top.node), top.depth + 1);
    }
    ListingEnds(graph, start, ordered, stack, limited);
    limited := limited || stack != [];
  }

  lemma ListingEnds(g: Graph, start: Id, ordered: seq<Id>, stack: seq<Frame>, limited: bool)
    requires Listing(g, start, ordered, stack, limited) && (stack == [] || |ordered| == MAX_PATH_DEPTH)
    ensures ordered == UpTo(Preorder(g, start), 32) && Distinct(ordered) && [start] <= ordered
    ensures forall x :: x in ordered ==> x in Preorder(g, start)
    ensures limited || stack != [] ==> |ordered| == 32
    ensures !limited && stack == [] ==> ordered == Preorder(g, start)
  {
    PreorderIsReachable(g, start);
    var all := Preorder(g, start);
    assert ordered == all[..|ordered|];
  }

  method Reachable(start: Id, wanted: Id, graph: Graph) returns (found: bool, limited: bool)
    ensures found <==> wanted in UpTo(Preorder(graph, start), 32)
    ensures found ==> Reaches(graph, start, wanted)
    ensures !limited ==> (found <==> Reaches(graph, start, wanted))
    ensures limited ==> |Preorder(graph, start)| >= 32
    ensures |Preorder(graph, start)| < 32 ==> !limited
  {
    var nodes;
    nodes, limited := PathNodesFrom(start, graph);
    found := wanted in nodes;
  }

  /** The two conditions of a dependency edge that the listing decides. */
  datatype EdgeConditions = EdgeConditions(dependencyCycle: bool, pathClassificationPartial: bool)

  /**
    The path of an edge is the first 32 nodes of what its target reaches, and the edge
    is marked as a dependency cycle exactly when its source is one of them. Only a
    full path is marked as partially classified; without that mark the path is
    everything the target reaches and the cycle mark is exact.
  */
  method Edge(source: Id, target: Id, graph: Graph) returns (conditions: EdgeConditions, path: seq<Id>)
    ensures path == UpTo(Preorder(graph, target), 32)
    ensures Distinct(path) && [target] <= path && |path| <= 32
    ensures forall x :: x in path ==> Reaches(graph, target, x)
    ensures conditions.dependencyCycle <==> source in path
    ensures conditions.pathClassificationPartial ==> |path| == 32
    ensures !conditions.pathClassificationPartial ==>
              (conditions.dependencyCycle <==> Reaches(graph, target, source))
    ensures !conditions.pathClassificationPartial ==>
              path == Preorder(graph, target) && forall x :: x in path <==> Reaches(graph, target, x)
    ensures target in Succ(graph, source) && conditions.dependencyCycle ==> !Acyclic(graph)
  {
    var limited, cycle, cycleLimited;
    path, limited := PathNodesFrom(target, graph);
    cycle, cycleLimited := Reachable(target, source, graph);
    conditions := EdgeConditions(cycle, limited || cycleLimited);
    if target in Succ(graph, source) && cycle {
      ghost var p :| WalkBetween(graph, target, source, p);
      JoinWalks(graph, [source], p);
      assert ([source] + p)[0] == ([source] + p)[|[source] + p| - 1];
    }
  }
}
