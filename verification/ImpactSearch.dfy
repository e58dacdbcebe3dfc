/**
  The loops of `CMDBManager.impact_graph`, and what its report says beyond the nodes it
  lists: when it is cut short, in what order, through which relationship, and which
  cycles it must show.
*/
module ImpactSearch {
  import opened Graphs
  import opened Ordering
  import opened ImpactGraph

  // ----- What the search also knows -----

  ghost predicate Ascending(nodes: seq<ImpactNode>) {
    forall i, j :: 0 <= i < j < |nodes| ==> nodes[i].depth <= nodes[j].depth
  }

  /** The node is listed for a relationship it declares on a node one step nearer. */
  ghost predicate LinkedNearer(g: Graph, cis: seq<ConfigItem>, root: Id, n: ImpactNode) {
    n.depth > 0
    && exists t, ci :: ci in cis && Declares(ci, t, Link(n.id, n.rel)) && AtRadius(g, root, t, n.depth - 1)
  }

  ghost predicate AllLinked(g: Graph, cis: seq<ConfigItem>, root: Id, nodes: seq<ImpactNode>) {
    forall i :: 0 <= i < |nodes| ==> LinkedNearer(g, cis, root, nodes[i])
  }

  /** A reported cycle closes with the edge from `x` to `y`. */
  ghost predicate Closes(cycles: seq<seq<Id>>, x: Id, y: Id) {
    exists c :: c in cycles && |c| >= 2 && c[|c| - 2] == x && c[|c| - 1] == y
  }

  /** Every edge of an expanded node to itself or to the root is in some reported cycle. */
  ghost predicate Looped(g: Graph, root: Id, d: map<Id, nat>, waiting: set<Id>, cycles: seq<seq<Id>>, maxDepth: nat) {
    forall x, y :: x in d && x !in waiting && d[x] < maxDepth && y in Succ(g, x) && (y == root || y == x) ==>
      Closes(cycles, x, y)
  }

  /** The node budget ran out: everything nearer was met, and some node next in distance was not. */
  ghost predicate Full(g: Graph, root: Id, d: map<Id, nat>, listed: nat, maxDepth: nat, maxNodes: nat) {
    && listed == maxNodes
    && exists level: nat, y ::
         level < maxDepth && MetUpTo(g, root, d, level) && y !in d && AtRadius(g, root, y, level + 1)
  }

  ghost predicate MetUpTo(g: Graph, root: Id, d: map<Id, nat>, level: nat) {
    (forall x :: x in Ball(g, root, level) ==> x in d) && (forall x :: x in d ==> d[x] <= level + 1)
  }

  /** A node at the depth bound that has dependents of its own. */
  ghost predicate CutAt(g: Graph, d: map<Id, nat>, x: Id, maxDepth: nat) {
    x in d && maxDepth <= d[x] && Succ(g, x) != []
  }

  /** The report is marked as truncated exactly for the nodes cut off so far. */
  ghost predicate Marked(g: Graph, d: map<Id, nat>, waiting: set<Id>, truncated: bool, maxDepth: nat) {
    && (truncated ==> exists x :: CutAt(g, d, x, maxDepth))
    && (forall x :: CutAt(g, d, x, maxDepth) && x !in waiting ==> truncated)
  }

  ghost predicate Told(g: Graph, cis: seq<ConfigItem>, root: Id, maxDepth: nat, maxNodes: nat, s: Search,
                       waiting: set<Id>) {
    && Ascending(s.nodes) && AllLinked(g, cis, root, s.nodes)
    && if s.stopped then Full(g, root, Depths(root, s.nodes), |s.nodes|, maxDepth, maxNodes)
       else
         && Marked(g, Depths(root, s.nodes), waiting, s.truncated, maxDepth)
         && Looped(g, root, Depths(root, s.nodes), waiting, s.cycles, maxDepth)
  }

  /** The head's own loops among the links followed so far are reported. */
  ghost predicate HeadLooped(root: Id, head: Visit, links: seq<Link>, j: nat, s: Search)
    requires j <= |links|
  {
    s.stopped || forall k :: 0 <= k < j && (links[k].source == root || links[k].source == head.node) ==>
                   Closes(s.cycles, head.node, links[k].source)
  }

  // ----- Each step keeps it -----

  lemma StartTold(g: Graph, cis: seq<ConfigItem>, root: Id, maxDepth: nat, maxNodes: nat)
    ensures var s := Search([Visit(root, 0, [root])], {root}, [], [], false, false);
            Told(g, cis, root, maxDepth, maxNodes, s, Waiting(s.queue))
  {
    var queue := [Visit(root, 0, [root])];
    assert root in Waiting(queue);
  }

  lemma CutTold(g: Graph, cis: seq<ConfigItem>, root: Id, maxDepth: nat, maxNodes: nat, s: Search, level: nat)
    requires Between(g, cis, root, maxDepth, maxNodes, s, level) && Told(g, cis, root, maxDepth, maxNodes, s,
                                                                         Waiting(s.queue))
    requires s.queue != [] && s.queue[0].depth >= maxDepth
    ensures var head := s.queue[0];
            var t := s.(queue := s.queue[1..], truncated := s.truncated || Succ(g, head.node) != []);
            Told(g, cis, root, maxDepth, maxNodes, t, Waiting(t.queue))
  {
    var d, head := Depths(root, s.nodes), s.queue[0];
    QueueTail(g, root, d, s.queue, level);
    assert Waiting(s.queue) == {head.node} + Waiting(s.queue[1..]);
    if Succ(g, head.node) != [] { assert CutAt(g, d, head.node, maxDepth); }
  }

  lemma CycleTold(g: Graph, cis: seq<ConfigItem>, root: Id, maxDepth: nat, maxNodes: nat, s: Search,
                  waiting: set<Id>, c: seq<Id>)
    requires !s.stopped && Told(g, cis, root, maxDepth, maxNodes, s, waiting)
    ensures Told(g, cis, root, maxDepth, maxNodes, s.(cycles := s.cycles + [c]), waiting)
    ensures forall x, y :: Closes(s.cycles, x, y) ==> Closes(s.cycles + [c], x, y)
  {
    forall x, y | Closes(s.cycles, x, y) ensures Closes(s.cycles + [c], x, y) {
      var k :| k in s.cycles && |k| >= 2 && k[|k| - 2] == x && k[|k| - 1] == y;
      assert k in s.cycles + [c];
    }
  }

  lemma FullTold(g: Graph, cis: seq<ConfigItem>, root: Id, maxDepth: nat, maxNodes: nat, head: Visit,
                 links: seq<Link>, j: nat, s: Search, y: Id)
    requires j <= |links| && During(g, cis, root, maxDepth, maxNodes, head, links, j, s) && !s.stopped
    requires y in Succ(g, head.node) && y !in s.seen && |s.nodes| >= maxNodes
    ensures Full(g, root, Depths(root, s.nodes), |s.nodes|, maxDepth, maxNodes)
  {
    var d, waiting := Depths(root, s.nodes), Waiting(s.queue) + {head.node};
    BallIsMet(g, root, d, waiting, head.depth, maxDepth, s.truncated, head.depth);
    NewRadius(g, root, d, waiting, head.depth, maxDepth, s.truncated, head.node, y);
    assert MetUpTo(g, root, d, head.depth) && AtRadius(g, root, y, head.depth + 1);
  }

  /** A node met for the first time is linked to the head. */
  lemma HeadLinks(g: Graph, cis: seq<ConfigItem>, root: Id, head: Visit, l: Link, n: ImpactNode)
    requires (exists ci :: ci in cis && Declares(ci, head.node, l)) && AtRadius(g, root, head.node, head.depth)
    requires n.id == l.source && n.rel == l.relType && n.depth == head.depth + 1
    ensures LinkedNearer(g, cis, root, n)
  {
    var ci :| ci in cis && Declares(ci, head.node, l);
    assert Declares(ci, head.node, Link(n.id, n.rel));
  }

  lemma ListedLast(g: Graph, cis: seq<ConfigItem>, root: Id, nodes: seq<ImpactNode>, n: ImpactNode)
    requires Ascending(nodes) && AllLinked(g, cis, root, nodes) && LinkedNearer(g, cis, root, n)
    requires forall i :: 0 <= i < |nodes| ==> nodes[i].depth <= n.depth
    ensures Ascending(nodes + [n]) && AllLinked(g, cis, root, nodes + [n])
  {
  }

  /** A new entry waits, so nothing is asked of it yet, and the old ones stay as they were. */
  lemma NewEntryTold(g: Graph, root: Id, d: map<Id, nat>, waiting: set<Id>, y: Id, k: nat, cycles: seq<seq<Id>>,
                     truncated: bool, maxDepth: nat)
    requires y !in d && Looped(g, root, d, waiting, cycles, maxDepth) && Marked(g, d, waiting, truncated, maxDepth)
    ensures Looped(g, root, d[y := k], waiting + {y}, cycles, maxDepth)
    ensures Marked(g, d[y := k], waiting + {y}, truncated, maxDepth)
  {
    var e := d[y := k];
    if truncated {
      var x :| CutAt(g, d, x, maxDepth);
      assert CutAt(g, e, x, maxDepth);
    }
    forall x | CutAt(g, e, x, maxDepth) && x !in waiting + {y} ensures truncated {
      assert CutAt(g, d, x, maxDepth);
    }
  }

  /** All that is known inside the inner loop. */
  ghost predicate Expanding(g: Graph, cis: seq<ConfigItem>, root: Id, maxDepth: nat, maxNodes: nat, head: Visit,
                            links: seq<Link>, j: nat, s: Search)
    requires j <= |links|
  {
    && During(g, cis, root, maxDepth, maxNodes, head, links, j, s)
    && Told(g, cis, root, maxDepth, maxNodes, s, Waiting(s.queue) + {head.node})
    && HeadLooped(root, head, links, j, s)
  }

  /** The link leads from `x` to a known item that declares it. */
  ghost predicate Leads(g: Graph, cis: seq<ConfigItem>, x: Id, l: Link) {
    l.source in Succ(g, x) && Known(cis, l.source) && exists ci :: ci in cis && Declares(ci, x, l)
  }

  /** The head, as far as following its links goes. */
  ghost predicate HeadStands(g: Graph, root: Id, maxDepth: nat, maxNodes: nat, head: Visit, s: Search, y: Id) {
    && root in head.path && head.node in head.path && head.path[|head.path| - 1] == head.node
    && AtRadius(g, root, head.node, head.depth) && s.seen == Depths(root, s.nodes).Keys
    && (forall i :: 0 <= i < |s.nodes| ==> s.nodes[i].depth <= head.depth + 1)
    && (y !in s.seen && |s.nodes| >= maxNodes ==>
          Full(g, root, Depths(root, s.nodes), |s.nodes|, maxDepth, maxNodes))
  }

  lemma HeadIs(g: Graph, cis: seq<ConfigItem>, root: Id, maxDepth: nat, maxNodes: nat, head: Visit,
               links: seq<Link>, j: nat, s: Search, y: Id)
    requires j <= |links| && During(g, cis, root, maxDepth, maxNodes, head, links, j, s) && !s.stopped
    requires y in Succ(g, head.node)
    ensures HeadStands(g, root, maxDepth, maxNodes, head, s, y)
  {
    var d := Depths(root, s.nodes);
    DepthsHold(root, s.nodes);
    forall i | 0 <= i < |s.nodes| ensures s.nodes[i].depth <= head.depth + 1 {
      assert d[s.nodes[i].id] == s.nodes[i].depth;
    }
    if y !in s.seen && |s.nodes| >= maxNodes {
      FullTold(g, cis, root, maxDepth, maxNodes, head, links, j, s, y);
    }
  }

  /** What holds of every way a link can be followed holds of following it. */
  lemma FollowCases(cis: seq<ConfigItem>, maxNodes: nat, head: Visit, s: Search, l: Link, p: Search -> bool)
    requires Known(cis, l.source)
    requires s.stopped || (l.source !in head.path && l.source in s.seen) ==> p(s)
    requires !s.stopped && l.source in head.path ==> p(s.(cycles := s.cycles + [head.path + [l.source]]))
    requires !s.stopped && l.source !in head.path && l.source !in s.seen ==>
               p(if |s.nodes| >= maxNodes then s.(queue := [], truncated := true, stopped := true)
                 else Extended(s, NewNode(cis, head, l), NewTurn(head, l)))
    ensures p(Follow(cis, maxNodes, head, s, l))
  {
  }

  function NewNode(cis: seq<ConfigItem>, head: Visit, l: Link): ImpactNode
    requires Known(cis, l.source)
  {
    ImpactNode(l.source, Find(cis, l.source).name, Find(cis, l.source).ciType, l.relType, head.depth + 1)
  }

  function NewTurn(head: Visit, l: Link): Visit {
    Visit(l.source, head.depth + 1, head.path + [l.source])
  }

  function Extended(s: Search, n: ImpactNode, v: Visit): Search {
    s.(seen := s.seen + {v.node}, nodes := s.nodes + [n], queue := s.queue + [v])
  }

  lemma FollowTold(g: Graph, cis: seq<ConfigItem>, root: Id, maxDepth: nat, maxNodes: nat, head: Visit,
                   links: seq<Link>, j: nat, s: Search)
    requires j < |links| && Leads(g, cis, head.node, links[j])
    requires Told(g, cis, root, maxDepth, maxNodes, s, Waiting(s.queue) + {head.node})
    requires HeadLooped(root, head, links, j, s)
    requires !s.stopped ==> HeadStands(g, root, maxDepth, maxNodes, head, s, links[j].source)
    ensures ToldTurn(g, cis, root, maxDepth, maxNodes, head, links, j + 1, Follow(cis, maxNodes, head, s, links[j]))
  {
    var y := links[j].source;
    ghost var p := (t: Search) => ToldTurn(g, cis, root, maxDepth, maxNodes, head, links, j + 1, t);
    if !s.stopped && y in head.path {
      FollowCycleTold(g, cis, root, maxDepth, maxNodes, head, links, j, s);
    } else if !s.stopped && y !in s.seen && |s.nodes| < maxNodes {
      FollowNewTold(g, cis, root, maxDepth, maxNodes, head, links, j, s);
    } else {
      FollowStaysTold(g, cis, root, maxDepth, maxNodes, head, links, j, s);
    }
    FollowCases(cis, maxNodes, head, s, links[j], p);
  }

  ghost predicate ToldTurn(g: Graph, cis: seq<ConfigItem>, root: Id, maxDepth: nat, maxNodes: nat, head: Visit,
                           links: seq<Link>, j: nat, t: Search) {
    && j <= |links| && HeadLooped(root, head, links, j, t)
    && Told(g, cis, root, maxDepth, maxNodes, t, Waiting(t.queue) + {head.node})
  }

  /** A link that lists nothing: its node has been met, or the budget is spent. */
  lemma FollowStaysTold(g: Graph, cis: seq<ConfigItem>, root: Id, maxDepth: nat, maxNodes: nat, head: Visit,
                        links: seq<Link>, j: nat, s: Search)
    requires j < |links| && Told(g, cis, root, maxDepth, maxNodes, s, Waiting(s.queue) + {head.node})
    requires HeadLooped(root, head, links, j, s)
    requires !s.stopped ==> HeadStands(g, root, maxDepth, maxNodes, head, s, links[j].source)
                            && links[j].source !in head.path
    ensures s.stopped || links[j].source in s.seen ==>
              ToldTurn(g, cis, root, maxDepth, maxNodes, head, links, j + 1, s)
    ensures links[j].source !in s.seen && |s.nodes| >= maxNodes && !s.stopped ==>
              ToldTurn(g, cis, root, maxDepth, maxNodes, head, links, j + 1,
                       s.(queue := [], truncated := true, stopped := true))
  {
  }

  lemma FollowCycleTold(g: Graph, cis: seq<ConfigItem>, root: Id, maxDepth: nat, maxNodes: nat, head: Visit,
                        links: seq<Link>, j: nat, s: Search)
    requires j < |links| && head.path != [] && head.path[|head.path| - 1] == head.node
    requires Told(g, cis, root, maxDepth, maxNodes, s, Waiting(s.queue) + {head.node})
    requires HeadLooped(root, head, links, j, s) && !s.stopped
    ensures ToldTurn(g, cis, root, maxDepth, maxNodes, head, links, j + 1,
                     s.(cycles := s.cycles + [head.path + [links[j].source]]))
  {
    var y := links[j].source;
    var c := head.path + [y];
    CycleTold(g, cis, root, maxDepth, maxNodes, s, Waiting(s.queue) + {head.node}, c);
    assert c in s.cycles + [c] && c[|c| - 2] == head.node && c[|c| - 1] == y;
    assert Closes(s.cycles + [c], head.node, y);
  }

  lemma FollowNewTold(g: Graph, cis: seq<ConfigItem>, root: Id, maxDepth: nat, maxNodes: nat, head: Visit,
                      links: seq<Link>, j: nat, s: Search)
    requires j < |links| && Told(g, cis, root, maxDepth, maxNodes, s, Waiting(s.queue) + {head.node})
    requires HeadLooped(root, head, links, j, s) && Leads(g, cis, head.node, links[j])
    requires HeadStands(g, root, maxDepth, maxNodes, head, s, links[j].source)
    requires !s.stopped && links[j].source !in head.path && links[j].source !in s.seen
    ensures ToldTurn(g, cis, root, maxDepth, maxNodes, head, links, j + 1,
                     Extended(s, NewNode(cis, head, links[j]), NewTurn(head, links[j])))
  {
    var n, v := NewNode(cis, head, links[j]), NewTurn(head, links[j]);
    HeadLinks(g, cis, root, head, links[j], n);
    ToldAppends(g, cis, root, maxDepth, maxNodes, s, Extended(s, n, v), head.node, n, v);
  }

  lemma ToldAppends(g: Graph, cis: seq<ConfigItem>, root: Id, maxDepth: nat, maxNodes: nat, s: Search, t: Search,
                    head: Id, n: ImpactNode, v: Visit)
    requires !s.stopped && Told(g, cis, root, maxDepth, maxNodes, s, Waiting(s.queue) + {head})
    requires v.node == n.id && n.id !in Depths(root, s.nodes) && LinkedNearer(g, cis, root, n)
    requires forall i :: 0 <= i < |s.nodes| ==> s.nodes[i].depth <= n.depth
    requires t.nodes == s.nodes + [n] && t.queue == s.queue + [v] && t.cycles == s.cycles
    requires t.truncated == s.truncated && !t.stopped
    ensures Told(g, cis, root, maxDepth, maxNodes, t, Waiting(t.queue) + {head})
  {
    ListedLast(g, cis, root, s.nodes, n);
    WaitingGrows(g, root, maxDepth, s, head, n, v);
  }

  lemma WaitingGrows(g: Graph, root: Id, maxDepth: nat, s: Search, head: Id, n: ImpactNode, v: Visit)
    requires v.node == n.id && n.id !in Depths(root, s.nodes)
    requires Marked(g, Depths(root, s.nodes), Waiting(s.queue) + {head}, s.truncated, maxDepth)
    requires Looped(g, root, Depths(root, s.nodes), Waiting(s.queue) + {head}, s.cycles, maxDepth)
    ensures var d, waiting := Depths(root, s.nodes + [n]), Waiting(s.queue + [v]) + {head};
            Marked(g, d, waiting, s.truncated, maxDepth) && Looped(g, root, d, waiting, s.cycles, maxDepth)
  {
    DepthsNext(root, s.nodes, s.nodes + [n], n.id, n.depth);
    WaitingSnoc(s.queue, v);
    assert Waiting(s.queue + [v]) + {head} == Waiting(s.queue) + {head} + {n.id};
    NewEntryTold(g, root, Depths(root, s.nodes), Waiting(s.queue) + {head}, n.id, n.depth, s.cycles, s.truncated,
                 maxDepth);
  }

  lemma ExpandOne(g: Graph, cis: seq<ConfigItem>, root: Id, maxDepth: nat, maxNodes: nat, head: Visit,
                  links: seq<Link>, j: nat, s: Search)
    requires j < |links| && Leads(g, cis, head.node, links[j])
    requires Expanding(g, cis, root, maxDepth, maxNodes, head, links, j, s)
    ensures Expanding(g, cis, root, maxDepth, maxNodes, head, links, j + 1, Follow(cis, maxNodes, head, s, links[j]))
  {
    FollowKeeps(g, cis, root, maxDepth, maxNodes, head, links, j, s);
    if !s.stopped { HeadIs(g, cis, root, maxDepth, maxNodes, head, links, j, s, links[j].source); }
    FollowTold(g, cis, root, maxDepth, maxNodes, head, links, j, s);
  }

  /** What every followed link keeps, all of them keep. */
  lemma {:induction false} FollowAllKeep(cis: seq<ConfigItem>, maxNodes: nat, head: Visit, links: seq<Link>, j: nat,
                                         s: Search, p: (nat, Search) -> bool)
    requires j <= |links| && AllKnown(cis, links) && p(0, s)
    requires forall i, x :: 0 <= i < |links| && p(i, x) ==> p(i + 1, Follow(cis, maxNodes, head, x, links[i]))
    ensures p(j, FollowAll(cis, maxNodes, head, s, links[..j]))
  {
    if j > 0 {
      FollowAllKeep(cis, maxNodes, head, links, j - 1, s, p);
      FollowAllNext(cis, maxNodes, head, links, j - 1, s);
    }
  }

  ghost function ExpandingAt(g: Graph, cis: seq<ConfigItem>, root: Id, maxDepth: nat, maxNodes: nat, head: Visit,
                             links: seq<Link>): (nat, Search) -> bool {
    (j: nat, x: Search) => j <= |links| && Expanding(g, cis, root, maxDepth, maxNodes, head, links, j, x)
  }

  lemma ExpandStep(g: Graph, cis: seq<ConfigItem>, root: Id, maxDepth: nat, maxNodes: nat, head: Visit,
                   links: seq<Link>, j: nat, s: Search)
    requires j < |links| && Leads(g, cis, head.node, links[j])
    requires ExpandingAt(g, cis, root, maxDepth, maxNodes, head, links)(j, s)
    ensures ExpandingAt(g, cis, root, maxDepth, maxNodes, head, links)(j + 1, Follow(cis, maxNodes, head, s, links[j]))
  {
    ExpandOne(g, cis, root, maxDepth, maxNodes, head, links, j, s);
  }

  lemma ExpandAll(g: Graph, cis: seq<ConfigItem>, root: Id, maxDepth: nat, maxNodes: nat, head: Visit,
                  links: seq<Link>, s: Search)
    requires AllKnown(cis, links) && forall i :: 0 <= i < |links| ==> Leads(g, cis, head.node, links[i])
    requires ExpandingAt(g, cis, root, maxDepth, maxNodes, head, links)(0, s)
    ensures ExpandingAt(g, cis, root, maxDepth, maxNodes, head, links)
                       (|links|, FollowAll(cis, maxNodes, head, s, links))
  {
    ghost var p := ExpandingAt(g, cis, root, maxDepth, maxNodes, head, links);
    forall i, x | 0 <= i < |links| && p(i, x) ensures p(i + 1, Follow(cis, maxNodes, head, x, links[i])) {
      ExpandStep(g, cis, root, maxDepth, maxNodes, head, links, i, x);
    }
    FollowAllKeep(cis, maxNodes, head, links, |links|, s, p);
    assert links[..|links|] == links;
  }

  /** The head has been expanded: it waits no longer, and its loops are reported. */
  lemma FinishTold(g: Graph, cis: seq<ConfigItem>, root: Id, maxDepth: nat, maxNodes: nat, head: Visit,
                   links: seq<Link>, s: Search)
    requires During(g, cis, root, maxDepth, maxNodes, head, links, |links|, s)
    requires Told(g, cis, root, maxDepth, maxNodes, s, Waiting(s.queue) + {head.node})
    requires HeadLooped(root, head, links, |links|, s)
    requires forall y :: y in Succ(g, head.node) ==> exists k :: 0 <= k < |links| && links[k].source == y
    ensures Told(g, cis, root, maxDepth, maxNodes, s, Waiting(s.queue))
  {
    if !s.stopped {
      var d := Depths(root, s.nodes);
      forall x, y | x in d && x !in Waiting(s.queue) && d[x] < maxDepth && y in Succ(g, x) && (y == root || y == x)
        ensures Closes(s.cycles, x, y)
      {
        if x == head.node {
          var k :| 0 <= k < |links| && links[k].source == y;
        }
      }
    }
  }

  lemma RoundTold(cis: seq<ConfigItem>, root: Id, maxDepth: nat, maxNodes: nat, s: Search, level: nat)
    requires s.queue != [] && Between(DependentGraph(cis), cis, root, maxDepth, maxNodes, s, level)
    requires Told(DependentGraph(cis), cis, root, maxDepth, maxNodes, s, Waiting(s.queue))
    ensures var t := Round(cis, maxDepth, maxNodes, s);
            Told(DependentGraph(cis), cis, root, maxDepth, maxNodes, t, Waiting(t.queue))
  {
    var head := s.queue[0];
    LinkFacts(cis, head.node);
    if head.depth >= maxDepth {
      CutTold(DependentGraph(cis), cis, root, maxDepth, maxNodes, s, level);
    } else {
      LinksLead(cis, head.node);
      ExpandTold(DependentGraph(cis), cis, root, maxDepth, maxNodes, SortedLinks(cis, head.node), s, level);
    }
  }

  lemma LinksLead(cis: seq<ConfigItem>, x: Id)
    ensures forall i :: 0 <= i < |SortedLinks(cis, x)| ==>
              Leads(DependentGraph(cis), cis, x, SortedLinks(cis, x)[i])
  {
    var links := SortedLinks(cis, x);
    LinkFacts(cis, x);
    forall i | 0 <= i < |links| ensures Leads(DependentGraph(cis), cis, x, links[i]) {
      assert links[i] in links;
      ReverseHoldsDeclared(cis, x, links[i]);
    }
  }

  lemma ExpandTold(g: Graph, cis: seq<ConfigItem>, root: Id, maxDepth: nat, maxNodes: nat, links: seq<Link>,
                   s: Search, level: nat)
    requires s.queue != [] && Between(g, cis, root, maxDepth, maxNodes, s, level) && s.queue[0].depth < maxDepth
    requires Told(g, cis, root, maxDepth, maxNodes, s, Waiting(s.queue))
    requires AllKnown(cis, links) && forall i :: 0 <= i < |links| ==> Leads(g, cis, s.queue[0].node, links[i])
    requires forall y :: y in Succ(g, s.queue[0].node) ==> exists k :: 0 <= k < |links| && links[k].source == y
    ensures var t := FollowAll(cis, maxNodes, s.queue[0], s.(queue := s.queue[1..]), links);
            Told(g, cis, root, maxDepth, maxNodes, t, Waiting(t.queue))
  {
    var head, rest := s.queue[0], s.(queue := s.queue[1..]);
    EnterExpanding(g, cis, root, maxDepth, maxNodes, links, s, level);
    ExpandAll(g, cis, root, maxDepth, maxNodes, head, links, rest);
    LeaveExpanding(g, cis, root, maxDepth, maxNodes, head, links, FollowAll(cis, maxNodes, head, rest, links));
  }

  lemma EnterExpanding(g: Graph, cis: seq<ConfigItem>, root: Id, maxDepth: nat, maxNodes: nat, links: seq<Link>,
                       s: Search, level: nat)
    requires s.queue != [] && Between(g, cis, root, maxDepth, maxNodes, s, level) && s.queue[0].depth < maxDepth
    requires Told(g, cis, root, maxDepth, maxNodes, s, Waiting(s.queue))
    ensures ExpandingAt(g, cis, root, maxDepth, maxNodes, s.queue[0], links)(0, s.(queue := s.queue[1..]))
  {
    Begin(g, cis, root, maxDepth, maxNodes, links, s, level);
    HeadTaken(g, cis, root, maxDepth, maxNodes, s);
  }

  lemma HeadTaken(g: Graph, cis: seq<ConfigItem>, root: Id, maxDepth: nat, maxNodes: nat, s: Search)
    requires s.queue != [] && Told(g, cis, root, maxDepth, maxNodes, s, Waiting(s.queue))
    ensures var rest := s.(queue := s.queue[1..]);
            Told(g, cis, root, maxDepth, maxNodes, rest, Waiting(rest.queue) + {s.queue[0].node})
  {
    assert Waiting(s.queue) == Waiting(s.queue[1..]) + {s.queue[0].node};
  }

  lemma LeaveExpanding(g: Graph, cis: seq<ConfigItem>, root: Id, maxDepth: nat, maxNodes: nat, head: Visit,
                       links: seq<Link>, t: Search)
    requires ExpandingAt(g, cis, root, maxDepth, maxNodes, head, links)(|links|, t)
    requires forall y :: y in Succ(g, head.node) ==> exists k :: 0 <= k < |links| && links[k].source == y
    ensures Told(g, cis, root, maxDepth, maxNodes, t, Waiting(t.queue))
  {
    FinishTold(g, cis, root, maxDepth, maxNodes, head, links, t);
  }

  // ----- Direct dependents -----

  /** Direct dependents come in id order. */
  ghost predicate DirectInOrder(nodes: seq<ImpactNode>) {
    forall i, j :: 0 <= i < j < |nodes| && nodes[i].depth == 1 && nodes[j].depth == 1 ==>
      StrLeq(nodes[i].id, nodes[j].id)
  }

  /** The node is listed with the first relationship, in order, among those links that lead to it. */
  ghost predicate FirstLink(n: ImpactNode, links: seq<Link>) {
    && (exists k :: 0 <= k < |links| && links[k].source == n.id)
    && (forall k :: 0 <= k < |links| && links[k].source == n.id ==> StrLeq(n.rel, links[k].relType))
  }

  /** While the root is expanded: every node so far is direct, and came from the links followed so far. */
  ghost predicate RootExpanding(links: seq<Link>, j: nat, s: Search) {
    && j <= |links| && DirectInOrder(s.nodes)
    && (forall i :: 0 <= i < |s.nodes| ==> s.nodes[i].depth == 1 && FirstLink(s.nodes[i], links[..j]))
    && (s.stopped || forall k :: 0 <= k < j ==> links[k].source in s.seen)
  }

  lemma SortedPair(links: seq<Link>, k: nat, j: nat)
    requires Sorted(links, LINK_KEY) && k <= j < |links|
    ensures StrLeq(links[k].source, links[j].source)
    ensures links[k].source == links[j].source ==> StrLeq(links[k].relType, links[j].relType)
  {
    StrTotal(links[k].source, links[j].source);
    StrTotal(links[k].relType, links[j].relType);
    if k < j { assert KeyLeq(LINK_KEY(links[k]), LINK_KEY(links[j])); }
  }

  lemma FirstLinkNext(n: ImpactNode, links: seq<Link>, j: nat)
    requires Sorted(links, LINK_KEY) && j < |links| && FirstLink(n, links[..j])
    ensures FirstLink(n, links[..j + 1])
  {
    var was, now := links[..j], links[..j + 1];
    var k :| 0 <= k < |was| && was[k].source == n.id;
    assert now[k].source == n.id && StrLeq(n.rel, links[k].relType);
    forall m | 0 <= m < |now| && now[m].source == n.id ensures StrLeq(n.rel, now[m].relType) {
      if m < j {
        assert was[m] == now[m];
      } else {
        SortedPair(links, k, j);
        StrTransitive(n.rel, links[k].relType, links[j].relType);
      }
    }
  }

  lemma RootExpandOne(cis: seq<ConfigItem>, maxNodes: nat, head: Visit, links: seq<Link>, j: nat, s: Search)
    requires j < |links| && Known(cis, links[j].source) && Sorted(links, LINK_KEY) && head.depth == 0
    requires head.path == [head.node] && head.node in s.seen && RootExpanding(links, j, s)
    ensures RootExpanding(links, j + 1, Follow(cis, maxNodes, head, s, links[j]))
    ensures head.node in Follow(cis, maxNodes, head, s, links[j]).seen
  {
    var l, t := links[j], Follow(cis, maxNodes, head, s, links[j]);
    forall i | 0 <= i < |s.nodes| ensures FirstLink(s.nodes[i], links[..j + 1]) && StrLeq(s.nodes[i].id, l.source) {
      FirstLinkNext(s.nodes[i], links, j);
      var k :| 0 <= k < |links[..j]| && links[..j][k].source == s.nodes[i].id;
      SortedPair(links, k, j);
    }
    if !s.stopped && l.source !in head.path && l.source !in s.seen && |s.nodes| < maxNodes {
      FollowNew(cis, maxNodes, head, s, l);
      NewIsFirst(cis, maxNodes, head, links, j, s);
    }
  }

  lemma NewIsFirst(cis: seq<ConfigItem>, maxNodes: nat, head: Visit, links: seq<Link>, j: nat, s: Search)
    requires j < |links| && Known(cis, links[j].source) && Sorted(links, LINK_KEY)
    requires !s.stopped && links[j].source !in head.path && links[j].source !in s.seen && |s.nodes| < maxNodes
    requires forall k :: 0 <= k < j ==> links[k].source in s.seen
    ensures FirstLink(Follow(cis, maxNodes, head, s, links[j]).nodes[|s.nodes|], links[..j + 1])
  {
    StrTotal(links[j].relType, links[j].relType);
    assert links[..j + 1][j] == links[j];
  }

  ghost function RootExpandingAt(head: Visit, links: seq<Link>): (nat, Search) -> bool {
    (j: nat, x: Search) => RootExpanding(links, j, x) && head.node in x.seen
  }

  /** The root is taken first, when nothing is listed. */
  ghost predicate RootFirst(root: Id, s: Search) {
    s.queue != [] && s.queue[0].depth == 0 ==>
      s.nodes == [] && s.queue == [Visit(root, 0, [root])] && s.seen == {root}
  }

  ghost predicate DirectTold(cis: seq<ConfigItem>, root: Id, s: Search) {
    && DirectInOrder(s.nodes) && RootFirst(root, s)
    && forall i :: 0 <= i < |s.nodes| && s.nodes[i].depth == 1 ==> FirstLink(s.nodes[i], SortedLinks(cis, root))
  }

  /** Expanding a node other than the root lists no direct dependent, and nothing at depth 0 is queued again. */
  ghost function LaterAt(head: Visit, was: Search): (nat, Search) -> bool {
    (j: nat, x: Search) =>
      && |was.nodes| <= |x.nodes| && x.nodes[..|was.nodes|] == was.nodes
      && (forall i :: |was.nodes| <= i < |x.nodes| ==> x.nodes[i].depth == head.depth + 1)
      && (forall i :: 0 <= i < |x.queue| ==>
            x.queue[i].depth == head.depth + 1 || (i < |was.queue| && x.queue[i] == was.queue[i]))
  }

  lemma FollowsLater(cis: seq<ConfigItem>, maxNodes: nat, head: Visit, links: seq<Link>, s: Search)
    requires AllKnown(cis, links)
    ensures LaterAt(head, s)(|links|, FollowAll(cis, maxNodes, head, s, links))
  {
    ghost var p := LaterAt(head, s);
    forall i, x | 0 <= i < |links| && p(i, x) ensures p(i + 1, Follow(cis, maxNodes, head, x, links[i])) {
      LaterOne(cis, maxNodes, head, links[i], s, x, i);
    }
    FollowAllKeep(cis, maxNodes, head, links, |links|, s, p);
    assert links[..|links|] == links;
  }

  lemma LaterOne(cis: seq<ConfigItem>, maxNodes: nat, head: Visit, l: Link, was: Search, x: Search, i: nat)
    requires Known(cis, l.source) && LaterAt(head, was)(i, x)
    ensures LaterAt(head, was)(i + 1, Follow(cis, maxNodes, head, x, l))
  {
  }

  lemma RootExpands(cis: seq<ConfigItem>, maxNodes: nat, root: Id, links: seq<Link>, s: Search)
    requires AllKnown(cis, links) && Sorted(links, LINK_KEY) && s.nodes == [] && root in s.seen
    ensures RootExpanding(links, |links|, FollowAll(cis, maxNodes, Visit(root, 0, [root]), s, links))
  {
    var head := Visit(root, 0, [root]);
    ghost var p := RootExpandingAt(head, links);
    forall i, x | 0 <= i < |links| && p(i, x) ensures p(i + 1, Follow(cis, maxNodes, head, x, links[i])) {
      RootExpandOne(cis, maxNodes, head, links, i, x);
    }
    FollowAllKeep(cis, maxNodes, head, links, |links|, s, p);
    assert links[..|links|] == links;
  }

  lemma QueueDepths(g: Graph, cis: seq<ConfigItem>, root: Id, maxDepth: nat, maxNodes: nat, s: Search, level: nat)
    requires s.queue != [] && Between(g, cis, root, maxDepth, maxNodes, s, level)
    ensures forall i :: 0 <= i < |s.queue| ==> s.queue[0].depth <= s.queue[i].depth
  {
    DepthsRise(g, root, Depths(root, s.nodes), s.queue, level);
  }

  lemma DepthsRise(g: Graph, root: Id, d: map<Id, nat>, queue: seq<Visit>, level: nat)
    requires queue != [] && InOrder(g, root, d, queue, level)
    ensures forall i :: 0 <= i < |queue| ==> queue[0].depth <= queue[i].depth
  {
  }

  lemma RoundDirect(cis: seq<ConfigItem>, root: Id, maxDepth: nat, maxNodes: nat, s: Search)
    requires s.queue != [] && DirectTold(cis, root, s)
    requires forall i :: 0 <= i < |s.queue| ==> s.queue[0].depth <= s.queue[i].depth
    ensures DirectTold(cis, root, Round(cis, maxDepth, maxNodes, s))
  {
    var head, rest := s.queue[0], s.(queue := s.queue[1..]);
    LinkFacts(cis, head.node);
    forall i | 0 <= i < |rest.queue| ensures head.depth <= rest.queue[i].depth {
      assert rest.queue[i] == s.queue[i + 1];
    }
    if head.depth < maxDepth && head.depth == 0 {
      RootDirect(cis, maxNodes, root, rest);
    } else if head.depth < maxDepth {
      var links := SortedLinks(cis, head.node);
      FollowsLater(cis, maxNodes, head, links, rest);
      LaterIsDirect(cis, root, head, links, rest, FollowAll(cis, maxNodes, head, rest, links));
    }
  }

  lemma RootDirect(cis: seq<ConfigItem>, maxNodes: nat, root: Id, rest: Search)
    requires rest.nodes == [] && rest.queue == [] && rest.seen == {root} && AllKnown(cis, SortedLinks(cis, root))
    ensures DirectTold(cis, root, FollowAll(cis, maxNodes, Visit(root, 0, [root]), rest, SortedLinks(cis, root)))
  {
    var links, head := SortedLinks(cis, root), Visit(root, 0, [root]);
    SortSorts(Links(ReverseOf(cis), root), LINK_KEY);
    RootExpands(cis, maxNodes, root, links, rest);
    FollowsLater(cis, maxNodes, head, links, rest);
    assert links[..|links|] == links;
  }

  lemma LaterIsDirect(cis: seq<ConfigItem>, root: Id, head: Visit, links: seq<Link>, rest: Search, t: Search)
    requires LaterAt(head, rest)(|links|, t) && head.depth > 0
    requires DirectInOrder(rest.nodes)
    requires forall i :: 0 <= i < |rest.queue| ==> rest.queue[i].depth > 0
    requires forall i :: 0 <= i < |rest.nodes| && rest.nodes[i].depth == 1 ==>
               FirstLink(rest.nodes[i], SortedLinks(cis, root))
    ensures DirectTold(cis, root, t)
  {
    assert forall i :: 0 <= i < |rest.nodes| ==> t.nodes[..|rest.nodes|][i] == t.nodes[i];
  }

  // ----- What the report says -----

  /** The dependent is listed with the first, in order, of the relationships it declares on the root. */
  ghost predicate FirstRelationship(cis: seq<ConfigItem>, root: Id, n: ImpactNode) {
    forall ci, relType :: ci in cis && Declares(ci, root, Link(n.id, relType)) ==> StrLeq(n.rel, relType)
  }

  ghost predicate Met(root: Id, r: Report, x: Id) {
    x == root || exists i :: 0 <= i < |r.dependents| && r.dependents[i].id == x
  }

  /**
    Nearer dependents come first, direct ones in id order, and each is listed for a relationship it declares on a
    node one step nearer. No dependent is left out that is nearer than one listed, nor
    any within the depth bound unless the list is full. The report is marked as truncated
    exactly when one within the bound is left out or one at the bound has dependents, and
    otherwise shows a cycle through the root exactly when there is one.
  */
  ghost predicate Faithful(cis: seq<ConfigItem>, root: Id, maxDepth: nat, maxNodes: nat, r: Report) {
    var g := DependentGraph(cis);
    && Ascending(r.dependents) && DirectInOrder(r.dependents) && AllLinked(g, cis, root, r.dependents)
    && (forall i :: 0 <= i < |r.dependents| && r.dependents[i].depth == 1 ==>
          FirstRelationship(cis, root, r.dependents[i]))
    && (forall x, k: nat, i :: 0 <= i < |r.dependents| && AtRadius(g, root, x, k) && !Met(root, r, x) ==>
          r.dependents[i].depth <= k)
    && (forall x, k: nat :: AtRadius(g, root, x, k) && k <= maxDepth && !Met(root, r, x) ==> |r.dependents| == maxNodes)
    && (r.truncated <==> exists x, k: nat :: AtRadius(g, root, x, k) && k <= maxDepth
                                        && (!Met(root, r, x) || (k == maxDepth && Succ(g, x) != [])))
    && (!r.truncated ==>
          ((exists c :: c in r.cycles && c != [] && c[|c| - 1] == root)
           <==> exists p :: IsWalk(g, p) && |p| > 1 && p[0] == root && p[|p| - 1] == root))
  }

  lemma MetIs(root: Id, r: Report)
    requires forall i :: 0 <= i < |r.dependents| ==> r.dependents[i].id != root
    requires forall i, j :: 0 <= i < j < |r.dependents| ==> r.dependents[i].id != r.dependents[j].id
    ensures forall x :: Met(root, r, x) <==> x in Depths(root, r.dependents)
    ensures forall i :: 0 <= i < |r.dependents| ==>
              r.dependents[i].id in Depths(root, r.dependents)
              && Depths(root, r.dependents)[r.dependents[i].id] == r.dependents[i].depth
  {
    DepthsHold(root, r.dependents);
  }

  /** When nothing waits and the budget held, everything within the depth bound was met. */
  lemma {:induction false} AllWithinMet(g: Graph, root: Id, d: map<Id, nat>, level: nat, maxDepth: nat,
                                        truncated: bool, k: nat)
    requires Covered(g, root, d, {}, level, maxDepth, truncated) && k <= maxDepth
    ensures forall x :: x in Ball(g, root, k) ==> x in d && d[x] <= k
  {
    if k > 0 {
      AllWithinMet(g, root, d, level, maxDepth, truncated, k - 1);
      forall x | x in Ball(g, root, k) ensures x in d && d[x] <= k {
        if x !in Ball(g, root, k - 1) {
          var u :| u in Ball(g, root, k - 1) && x in Succ(g, u);
          assert Settled(g, d, u, maxDepth, truncated);
        }
      }
    }
  }

  lemma RadiusIsUnique(g: Graph, root: Id, x: Id, j: nat, k: nat)
    requires AtRadius(g, root, x, j) && AtRadius(g, root, x, k)
    ensures j == k
  {
    if j < k { BallGrows(g, root, j, k - 1); }
    if k < j { BallGrows(g, root, k, j - 1); }
  }

  /** Whatever was not met is at least as far as everything listed, and beyond the bound unless the list is full. */
  lemma NothingNearer(g: Graph, cis: seq<ConfigItem>, root: Id, maxDepth: nat, maxNodes: nat, s: Search, level: nat,
                      x: Id, k: nat)
    requires s.queue == [] && Between(g, cis, root, maxDepth, maxNodes, s, level)
    requires Told(g, cis, root, maxDepth, maxNodes, s, {})
    requires AtRadius(g, root, x, k) && x !in Depths(root, s.nodes)
    ensures forall z :: z in Depths(root, s.nodes) ==> Depths(root, s.nodes)[z] <= k
    ensures k <= maxDepth ==> |s.nodes| == maxNodes && s.truncated
  {
    var d := Depths(root, s.nodes);
    if s.stopped {
      var l: nat, y :| l < maxDepth && MetUpTo(g, root, d, l) && y !in d && AtRadius(g, root, y, l + 1);
      if k <= l { BallGrows(g, root, k, l); }
    } else {
      assert Waiting(s.queue) + {} == {};
      AllWithinMet(g, root, d, level, maxDepth, s.truncated, maxDepth);
      if k <= maxDepth { BallGrows(g, root, k, maxDepth); }
    }
  }

  /** A report is marked as truncated only when something is left out or cut off. */
  lemma TruncatedFor(g: Graph, cis: seq<ConfigItem>, root: Id, maxDepth: nat, maxNodes: nat, s: Search)
    returns (x: Id, k: nat)
    requires Told(g, cis, root, maxDepth, maxNodes, s, {}) && s.truncated
    requires Placed(g, root, Depths(root, s.nodes), maxDepth)
    ensures AtRadius(g, root, x, k) && k <= maxDepth
    ensures x !in Depths(root, s.nodes) || (k == maxDepth && Succ(g, x) != [])
  {
    if s.stopped {
      x, k := LeftOut(g, root, Depths(root, s.nodes), |s.nodes|, maxDepth, maxNodes);
    } else {
      x := CutOffAt(g, root, Depths(root, s.nodes), maxDepth);
      k := maxDepth;
    }
  }

  lemma LeftOut(g: Graph, root: Id, d: map<Id, nat>, listed: nat, maxDepth: nat, maxNodes: nat)
    returns (x: Id, k: nat)
    requires Full(g, root, d, listed, maxDepth, maxNodes)
    ensures AtRadius(g, root, x, k) && k <= maxDepth && x !in d
  {
    var l: nat, y :| l < maxDepth && MetUpTo(g, root, d, l) && y !in d && AtRadius(g, root, y, l + 1);
    x, k := y, l + 1;
  }

  lemma CutOffAt(g: Graph, root: Id, d: map<Id, nat>, maxDepth: nat) returns (x: Id)
    requires Placed(g, root, d, maxDepth) && exists x :: CutAt(g, d, x, maxDepth)
    ensures AtRadius(g, root, x, maxDepth) && Succ(g, x) != []
  {
    x :| CutAt(g, d, x, maxDepth);
    assert AtRadius(g, root, x, d[x]);
  }

  lemma CutIsTold(g: Graph, cis: seq<ConfigItem>, root: Id, maxDepth: nat, maxNodes: nat, s: Search, x: Id)
    requires s.stopped ==> s.truncated
    requires Told(g, cis, root, maxDepth, maxNodes, s, {}) && Placed(g, root, Depths(root, s.nodes), maxDepth)
    requires AtRadius(g, root, x, maxDepth) && Succ(g, x) != [] && x in Depths(root, s.nodes)
    ensures s.truncated
  {
    RadiusIsUnique(g, root, x, maxDepth, Depths(root, s.nodes)[x]);
    if !s.stopped { assert CutAt(g, Depths(root, s.nodes), x, maxDepth); }
  }

  /** A walk back to the root ends with an edge of an expanded node, which is reported. */
  lemma RootLoopIsShown(g: Graph, root: Id, d: map<Id, nat>, cycles: seq<seq<Id>>, maxDepth: nat, p: seq<Id>)
    requires Looped(g, root, d, {}, cycles, maxDepth) && Marked(g, d, {}, false, maxDepth)
    requires forall x :: Reaches(g, root, x) ==> x in d
    requires IsWalk(g, p) && |p| > 1 && p[0] == root && p[|p| - 1] == root
    ensures exists c :: c in cycles && c != [] && c[|c| - 1] == root
  {
    var x := p[|p| - 2];
    assert WalkBetween(g, root, x, p[..|p| - 1]);
    assert p[|p| - 2 + 1] in Succ(g, x);
    assert !CutAt(g, d, x, maxDepth);
    assert Closes(cycles, x, root);
  }

  lemma RootLoops(g: Graph, cis: seq<ConfigItem>, root: Id, maxDepth: nat, maxNodes: nat, s: Search, level: nat)
    requires s.queue == [] && Between(g, cis, root, maxDepth, maxNodes, s, level)
    requires Told(g, cis, root, maxDepth, maxNodes, s, {}) && !s.truncated
    ensures (exists c :: c in s.cycles && c != [] && c[|c| - 1] == root)
            <==> exists p :: IsWalk(g, p) && |p| > 1 && p[0] == root && p[|p| - 1] == root
  {
    if c :| c in s.cycles && c != [] && c[|c| - 1] == root {
      assert RevisitingWalk(g, root, c);
    }
    if p :| IsWalk(g, p) && |p| > 1 && p[0] == root && p[|p| - 1] == root {
      assert Waiting(s.queue) + {} == {};
      NothingLeftOut(g, root, Depths(root, s.nodes), level, maxDepth);
      RootLoopIsShown(g, root, Depths(root, s.nodes), s.cycles, maxDepth, p);
    }
  }

  lemma DirectRel(cis: seq<ConfigItem>, root: Id, n: ImpactNode)
    requires FirstLink(n, SortedLinks(cis, root))
    ensures FirstRelationship(cis, root, n)
  {
    var links := SortedLinks(cis, root);
    forall ci, relType | ci in cis && Declares(ci, root, Link(n.id, relType)) ensures StrLeq(n.rel, relType) {
      ReverseHoldsDeclared(cis, root, Link(n.id, relType));
      assert Link(n.id, relType) in links;
      var k :| 0 <= k < |links| && links[k] == Link(n.id, relType);
    }
  }

  lemma EndIsFaithful(cis: seq<ConfigItem>, root: Id, maxDepth: nat, maxNodes: nat, s: Search, level: nat)
    requires s.queue == [] && Between(DependentGraph(cis), cis, root, maxDepth, maxNodes, s, level)
    requires Told(DependentGraph(cis), cis, root, maxDepth, maxNodes, s, {}) && DirectTold(cis, root, s)
    ensures Faithful(cis, root, maxDepth, maxNodes, Report(s.nodes, s.cycles, s.truncated))
  {
    var g, d, r := DependentGraph(cis), Depths(root, s.nodes), Report(s.nodes, s.cycles, s.truncated);
    MetIs(root, r);
    forall i | 0 <= i < |s.nodes| && s.nodes[i].depth == 1 ensures FirstRelationship(cis, root, s.nodes[i]) {
      DirectRel(cis, root, s.nodes[i]);
    }
    forall x, k: nat | AtRadius(g, root, x, k) && !Met(root, r, x)
      ensures forall i :: 0 <= i < |s.nodes| ==> s.nodes[i].depth <= k
      ensures k <= maxDepth ==> |s.nodes| == maxNodes && s.truncated
    {
      NothingNearer(g, cis, root, maxDepth, maxNodes, s, level, x, k);
      forall i | 0 <= i < |s.nodes| ensures s.nodes[i].depth <= k { assert s.nodes[i].id in d; }
    }
    forall x | AtRadius(g, root, x, maxDepth) && Succ(g, x) != [] ensures s.truncated {
      if x in d { CutIsTold(g, cis, root, maxDepth, maxNodes, s, x); }
      else { NothingNearer(g, cis, root, maxDepth, maxNodes, s, level, x, maxDepth); }
    }
    if s.truncated {
      var x, k := TruncatedFor(g, cis, root, maxDepth, maxNodes, s);
    } else {
      RootLoops(g, cis, root, maxDepth, maxNodes, s, level);
    }
  }

  // ----- The loops -----

  /** All that is known between two turns of the outer loop. */
  ghost predicate Searching(cis: seq<ConfigItem>, root: Id, maxDepth: nat, maxNodes: nat, s: Search, level: nat) {
    && Between(DependentGraph(cis), cis, root, maxDepth, maxNodes, s, level)
    && Told(DependentGraph(cis), cis, root, maxDepth, maxNodes, s, Waiting(s.queue))
    && DirectTold(cis, root, s)
  }

  lemma RoundSearches(cis: seq<ConfigItem>, root: Id, maxDepth: nat, maxNodes: nat, s: Search, level: nat)
    requires s.queue != [] && Searching(cis, root, maxDepth, maxNodes, s, level)
    ensures Searching(cis, root, maxDepth, maxNodes, Round(cis, maxDepth, maxNodes, s), s.queue[0].depth)
  {
    RoundKeeps(cis, root, maxDepth, maxNodes, s, level);
    RoundTold(cis, root, maxDepth, maxNodes, s, level);
    QueueDepths(DependentGraph(cis), cis, root, maxDepth, maxNodes, s, level);
    RoundDirect(cis, root, maxDepth, maxNodes, s);
  }

  lemma EndOfSearch(cis: seq<ConfigItem>, root: Id, maxDepth: nat, maxNodes: nat, s: Search, level: nat)
    requires s.queue == [] && Searching(cis, root, maxDepth, maxNodes, s, level)
    ensures Exact(cis, root, maxDepth, maxNodes, Report(s.nodes, s.cycles, s.truncated))
    ensures Faithful(cis, root, maxDepth, maxNodes, Report(s.nodes, s.cycles, s.truncated))
  {
    EndIsExact(cis, root, maxDepth, maxNodes, s, level);
    EndIsFaithful(cis, root, maxDepth, maxNodes, s, level);
  }

  /** One turn of the outer loop. */
  method TakeTurn(cis: seq<ConfigItem>, reverse: Reverse, maxDepth: nat, maxNodes: nat, s: Search) returns (t: Search)
    requires reverse == ReverseOf(cis) && s.queue != []
    ensures t == Round(cis, maxDepth, maxNodes, s)
  {
    var head := s.queue[0];
    t := s.(queue := s.queue[1..]);
    if head.depth >= maxDepth {
      t := t.(truncated := t.truncated || Links(reverse, head.node) != []);
      return;
    }
    var links := StableSort(Links(reverse, head.node), LINK_KEY);
    LinkFacts(cis, head.node);
    t := FollowLinks(cis, maxNodes, head, t, links);
  }

  method ImpactOf(cis: seq<ConfigItem>, ciId: Id, maxDepth: int, maxNodes: int) returns (r: Impact)
    requires forall i, j :: 0 <= i < j < |cis| ==> cis[i].id != cis[j].id
    ensures r == BadBounds <==> maxDepth < 0 || maxNodes < 1
    ensures r == NotFound <==> maxDepth >= 0 && maxNodes >= 1 && !Known(cis, ciId)
    ensures r.Impact? ==> Exact(cis, ciId, maxDepth, maxNodes, r.report)
    ensures r.Impact? ==> Faithful(cis, ciId, maxDepth, maxNodes, r.report)
  {
    if maxDepth < 0 || maxNodes < 1 {
      return BadBounds;
    }
    if !Known(cis, ciId) {
      return NotFound;
    }
    var reverse := BuildReverse(cis);
    var s := Search([Visit(ciId, 0, [ciId])], {ciId}, [], [], false, false);
    ghost var level := 0;
    Start(DependentGraph(cis), cis, ciId, maxDepth, maxNodes);
    StartTold(DependentGraph(cis), cis, ciId, maxDepth, maxNodes);
    while s.queue != []
      invariant Searching(cis, ciId, maxDepth, maxNodes, s, level)
      decreases |Ids(cis) - s.seen|, |s.queue|
    {
      RoundSearches(cis, ciId, maxDepth, maxNodes, s, level);
      RoundProgress(cis, ciId, maxDepth, maxNodes, s, level);
      level := s.queue[0].depth;
      s := TakeTurn(cis, reverse, maxDepth, maxNodes, s);
    }
    EndOfSearch(cis, ciId, maxDepth, maxNodes, s, level);
    r := Impact(Report(s.nodes, s.cycles, s.truncated));
  }

  /** The inner loop: a node budget stops it, and with it the whole search. */
  method FollowLinks(cis: seq<ConfigItem>, maxNodes: nat, head: Visit, s: Search, links: seq<Link>) returns (t: Search)
    requires AllKnown(cis, links)
    ensures t == FollowAll(cis, maxNodes, head, s, links)
  {
    var queue, seen, nodes, cycles := s.queue, s.seen, s.nodes, s.cycles;
    if s.stopped {
      StoppedStays(cis, maxNodes, head, s, links, 0);
      return s;
    }
    for j := 0 to |links|
      invariant Search(queue, seen, nodes, cycles, s.truncated, false) == FollowAll(cis, maxNodes, head, s, links[..j])
    {
      var sourceId, relType := links[j].source, links[j].relType;
      assert links[..j + 1][..j] == links[..j];
      if sourceId in head.path {
        cycles := cycles + [head.path + [sourceId]];
        continue;
      }
      if sourceId in seen {
        continue;
      }
      if |nodes| >= maxNodes {
        t := Search([], seen, nodes, cycles, true, true);
        StoppedStays(cis, maxNodes, head, s, links, j + 1);
        return;
      }
      seen := seen + {sourceId};
      var source := Find(cis, sourceId);
      nodes := nodes + [ImpactNode(sourceId, source.name, source.ciType, relType, head.depth + 1)];
      queue := queue + [Visit(sourceId, head.depth + 1, head.path + [sourceId])];
    }
    assert links[..|links|] == links;
    t := Search(queue, seen, nodes, cycles, s.truncated, false);
  }

  lemma {:induction false} StoppedStays(cis: seq<ConfigItem>, maxNodes: nat, head: Visit, s: Search,
                                        links: seq<Link>, j: nat)
    requires AllKnown(cis, links) && j <= |links|
    requires FollowAll(cis, maxNodes, head, s, links[..j]).stopped
    ensures FollowAll(cis, maxNodes, head, s, links) == FollowAll(cis, maxNodes, head, s, links[..j])
    decreases |links| - j
  {
    if j == |links| {
      assert links[..j] == links;
    } else {
      assert links[..j + 1][..j] == links[..j];
      StoppedStays(cis, maxNodes, head, s, links, j + 1);
    }
  }
}
