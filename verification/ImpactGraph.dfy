/**
  Transitive impact of one configuration item (`CMDBManager.impact_graph`): a
  breadth-first search over reversed `depends_on` and `runs_on` edges, bounded
  in depth and in the number of nodes listed.
*/
module ImpactGraph {
  import opened Graphs
  import opened Ordering

  datatype Relationship = Relationship(relType: string, target: Id)
  datatype ConfigItem = ConfigItem(id: Id, name: string, ciType: string, relationships: seq<Relationship>)

  /** A dependent of some item, and how it depends on it. */
  datatype Link = Link(source: Id, relType: string)

  type Reverse = map<Id, seq<Link>>

  predicate Cascades(rel: Relationship) {
    rel.relType == "depends_on" || rel.relType == "runs_on"
  }

  // ----- Reversing the relationships -----

  function Links(reverse: Reverse, target: Id): seq<Link> {
    if target in reverse then reverse[target] else []
  }

  function AddRelationships(reverse: Reverse, source: Id, rels: seq<Relationship>): Reverse {
    if rels == [] then reverse
    else
      var before := AddRelationships(reverse, source, rels[..|rels| - 1]);
      var rel := rels[|rels| - 1];
      if Cascades(rel) then before[rel.target := Links(before, rel.target) + [Link(source, rel.relType)]]
      else before
  }

  function ReverseOf(cis: seq<ConfigItem>): Reverse {
    if cis == [] then map[]
    else
      var ci := cis[|cis| - 1];
      AddRelationships(ReverseOf(cis[..|cis| - 1]), ci.id, ci.relationships)
  }

  method BuildReverse(cis: seq<ConfigItem>) returns (reverse: Reverse)
    ensures reverse == ReverseOf(cis)
  {
    reverse := map[];
    for i := 0 to |cis|
      invariant reverse == ReverseOf(cis[..i])
    {
      var source := cis[i];
      for j := 0 to |source.relationships|
        invariant reverse == AddRelationships(ReverseOf(cis[..i]), source.id, source.relationships[..j])
      {
        var rel := source.relationships[j];
        assert source.relationships[..j + 1][..j] == source.relationships[..j];
        if rel.relType == "depends_on" || rel.relType == "runs_on" {
          reverse := reverse[rel.target := Links(reverse, rel.target) + [Link(source.id, rel.relType)]];
        }
      }
      assert source.relationships[..|source.relationships|] == source.relationships;
      assert cis[..i + 1][..i] == cis[..i];
    }
    assert cis[..|cis|] == cis;
  }

  ghost predicate Declares(ci: ConfigItem, target: Id, link: Link) {
    ci.id == link.source && link.relType in {"depends_on", "runs_on"}
    && Relationship(link.relType, target) in ci.relationships
  }

  lemma {:induction false} AddRelationshipsLinks(reverse: Reverse, source: Id, rels: seq<Relationship>, t: Id, l: Link)
    ensures l in Links(AddRelationships(reverse, source, rels), t)
            <==> l in Links(reverse, t)
                 || (l.source == source && Cascades(Relationship(l.relType, t))
                     && Relationship(l.relType, t) in rels)
  {
    if rels != [] {
      AddRelationshipsLinks(reverse, source, rels[..|rels| - 1], t, l);
      assert rels == rels[..|rels| - 1] + [rels[|rels| - 1]];
    }
  }

  /** The reversed map holds a link exactly when some item declares it. */
  lemma {:induction false} ReverseHoldsDeclared(cis: seq<ConfigItem>, t: Id, l: Link)
    ensures l in Links(ReverseOf(cis), t) <==> exists ci :: ci in cis && Declares(ci, t, l)
  {
    if cis != [] {
      var front, ci := cis[..|cis| - 1], cis[|cis| - 1];
      assert cis == front + [ci];
      AddRelationshipsLinks(ReverseOf(front), ci.id, ci.relationships, t, l);
      ReverseHoldsDeclared(front, t, l);
      if c :| c in cis && Declares(c, t, l) {
        assert c in front || c == ci;
      } else {
        assert !Declares(ci, t, l);
        assert forall c :: c in front ==> c in cis;
      }
    }
  }

  // ----- The graph searched -----

  const LINK_KEY: Link -> Key := (l: Link) => Key(l.source, l.relType, 0)
  const LINK_SOURCE: Link -> Id := (l: Link) => l.source

  /** `sorted(reverse.get(target, []))`. */
  function SortedLinks(cis: seq<ConfigItem>, target: Id): (r: seq<Link>)
    ensures forall l :: l in r <==> l in Links(ReverseOf(cis), target)
  {
    SortSorts(Links(ReverseOf(cis), target), LINK_KEY);
    SameElements(StableSort(Links(ReverseOf(cis), target), LINK_KEY), Links(ReverseOf(cis), target));
    StableSort(Links(ReverseOf(cis), target), LINK_KEY)
  }

  lemma SameElements<T>(a: seq<T>, b: seq<T>)
    requires multiset(a) == multiset(b)
    ensures forall x :: x in a <==> x in b
  {
    forall x ensures x in a <==> x in b {
      assert x in a <==> x in multiset(a);
      assert x in b <==> x in multiset(b);
    }
  }

  /** Each item leads to the items that depend on it. */
  function DependentGraph(cis: seq<ConfigItem>): Graph {
    map t | t in ReverseOf(cis) :: MapAll(SortedLinks(cis, t), LINK_SOURCE)
  }

  /** An edge of the search is a declared `depends_on` or `runs_on`, reversed. */
  lemma DependentGraphEdges(cis: seq<ConfigItem>, t: Id, s: Id)
    ensures s in Succ(DependentGraph(cis), t)
            <==> exists ci, relType :: ci in cis && Declares(ci, t, Link(s, relType))
  {
    if s in Succ(DependentGraph(cis), t) {
      var links := SortedLinks(cis, t);
      var i :| 0 <= i < |links| && MapAll(links, LINK_SOURCE)[i] == s;
      assert links[i] in links && links[i] == Link(s, links[i].relType);
      ReverseHoldsDeclared(cis, t, links[i]);
    }
    if ci, relType :| ci in cis && Declares(ci, t, Link(s, relType)) {
      ReverseHoldsDeclared(cis, t, Link(s, relType));
      var links := SortedLinks(cis, t);
      var i :| 0 <= i < |links| && links[i] == Link(s, relType);
      assert MapAll(links, LINK_SOURCE)[i] == s;
    }
  }

  /** `b` is `k` edges from `a`, and no walk is shorter. */
  ghost predicate ShortestDistance(g: Graph, a: Id, b: Id, k: nat) {
    && (exists p :: WalkBetween(g, a, b, p) && |p| == k + 1)
    && (forall p :: WalkBetween(g, a, b, p) ==> |p| >= k + 1)
  }

  /** A walk from `a` that comes back, with its last edge, to a node it passed. */
  ghost predicate RevisitingWalk(g: Graph, a: Id, c: seq<Id>) {
    IsWalk(g, c) && |c| > 1 && c[0] == a && c[|c| - 1] in c[..|c| - 1]
  }

  /** The nodes at most `k` edges from `a`. */
  ghost function Ball(g: Graph, a: Id, k: nat): set<Id> {
    if k == 0 then {a}
    else
      var inner := Ball(g, a, k - 1);
      inner + set x, y | x in inner && y in Succ(g, x) :: y
  }

  lemma {:induction false} BallGrows(g: Graph, a: Id, j: nat, k: nat)
    requires j <= k
    ensures Ball(g, a, j) <= Ball(g, a, k)
  {
    if j < k { BallGrows(g, a, j, k - 1); }
  }

  lemma {:induction false} WalkInBall(g: Graph, a: Id, p: seq<Id>)
    requires IsWalk(g, p) && p[0] == a
    ensures p[|p| - 1] in Ball(g, a, |p| - 1)
  {
    if |p| > 1 {
      var q := p[..|p| - 1];
      assert IsWalk(g, q) && q[|q| - 1] == p[|p| - 2];
      WalkInBall(g, a, q);
      assert p[|p| - 2 + 1] in Succ(g, p[|p| - 2]);
    }
  }

  lemma {:induction false} BallHasWalk(g: Graph, a: Id, b: Id, k: nat) returns (p: seq<Id>)
    requires b in Ball(g, a, k)
    ensures WalkBetween(g, a, b, p) && |p| <= k + 1
    decreases k
  {
    if k == 0 {
      p := [a];
    } else if b in Ball(g, a, k - 1) {
      p := BallHasWalk(g, a, b, k - 1);
    } else {
      var x :| x in Ball(g, a, k - 1) && b in Succ(g, x);
      var q := BallHasWalk(g, a, x, k - 1);
      JoinWalks(g, q, [b]);
      p := q + [b];
    }
  }

  /** First met at radius `k`: the recursive form of being at distance `k`. */
  ghost predicate AtRadius(g: Graph, a: Id, b: Id, k: nat) {
    b in Ball(g, a, k) && (k > 0 ==> b !in Ball(g, a, k - 1))
  }

  lemma RadiusIsDistance(g: Graph, a: Id, b: Id, k: nat)
    requires AtRadius(g, a, b, k)
    ensures ShortestDistance(g, a, b, k)
  {
    forall p | WalkBetween(g, a, b, p) ensures |p| >= k + 1 {
      WalkOutsideBall(g, a, b, k, p);
    }
    var p := BallHasWalk(g, a, b, k);
    assert WalkBetween(g, a, b, p) && |p| == k + 1;
  }

  lemma WalkOutsideBall(g: Graph, a: Id, b: Id, k: nat, p: seq<Id>)
    requires AtRadius(g, a, b, k) && WalkBetween(g, a, b, p)
    ensures |p| >= k + 1
  {
    WalkInBall(g, a, p);
    if |p| <= k { BallGrows(g, a, |p| - 1, k - 1); }
  }

  // ----- The search, as a function of its state -----

  datatype ImpactNode = ImpactNode(id: Id, name: string, ciType: string, rel: string, depth: nat)
  datatype Visit = Visit(node: Id, depth: nat, path: seq<Id>)
  datatype Search = Search(queue: seq<Visit>, seen: set<Id>, nodes: seq<ImpactNode>, cycles: seq<seq<Id>>,
                           truncated: bool, stopped: bool)
  datatype Report = Report(dependents: seq<ImpactNode>, cycles: seq<seq<Id>>, truncated: bool)
  datatype Impact = BadBounds | NotFound | Impact(report: Report)

  predicate Known(cis: seq<ConfigItem>, id: Id) {
    exists i :: 0 <= i < |cis| && cis[i].id == id
  }

  function Find(cis: seq<ConfigItem>, id: Id): (ci: ConfigItem)
    requires Known(cis, id)
    ensures ci in cis && ci.id == id
  {
    if cis[0].id == id then cis[0]
    else
      assert Known(cis[1..], id) by {
        var i :| 0 <= i < |cis| && cis[i].id == id;
        assert cis[1..][i - 1].id == id;
      }
      Find(cis[1..], id)
  }

  /** What the search does with one link of the node `head`. */
  function Follow(cis: seq<ConfigItem>, maxNodes: nat, head: Visit, s: Search, l: Link): Search
    requires Known(cis, l.source)
  {
    if s.stopped then s
    else if l.source in head.path then s.(cycles := s.cycles + [head.path + [l.source]])
    else if l.source in s.seen then s
    else if |s.nodes| >= maxNodes then s.(queue := [], truncated := true, stopped := true)
    else
      var ci := Find(cis, l.source);
      s.(seen := s.seen + {l.source},
         nodes := s.nodes + [ImpactNode(l.source, ci.name, ci.ciType, l.relType, head.depth + 1)],
         queue := s.queue + [Visit(l.source, head.depth + 1, head.path + [l.source])])
  }

  predicate AllKnown(cis: seq<ConfigItem>, links: seq<Link>) {
    forall i :: 0 <= i < |links| ==> Known(cis, links[i].source)
  }

  function FollowAll(cis: seq<ConfigItem>, maxNodes: nat, head: Visit, s: Search, links: seq<Link>): Search
    requires AllKnown(cis, links)
  {
    if links == [] then s
    else Follow(cis, maxNodes, head, FollowAll(cis, maxNodes, head, s, links[..|links| - 1]), links[|links| - 1])
  }

  /** The recorded depth of every node met. */
  function Depths(root: Id, nodes: seq<ImpactNode>): map<Id, nat> {
    if nodes == [] then map[root := 0]
    else Depths(root, nodes[..|nodes| - 1])[nodes[|nodes| - 1].id := nodes[|nodes| - 1].depth]
  }

  // ----- What is reported -----

  /** Recorded depths are radii, within the depth bound. */
  ghost predicate Placed(g: Graph, root: Id, d: map<Id, nat>, maxDepth: nat) {
    forall x :: x in d ==> AtRadius(g, root, x, d[x]) && d[x] <= maxDepth
  }

  /** A listed node carries the name and type of the inventory item it names. */
  ghost predicate Named(cis: seq<ConfigItem>, n: ImpactNode) {
    exists ci :: ci in cis && ci.id == n.id && ci.name == n.name && ci.ciType == n.ciType
  }

  ghost predicate Listed(cis: seq<ConfigItem>, root: Id, nodes: seq<ImpactNode>) {
    && (forall i :: 0 <= i < |nodes| ==> nodes[i].id != root && Named(cis, nodes[i]) && Known(cis, nodes[i].id))
    && (forall i, j :: 0 <= i < j < |nodes| ==> nodes[i].id != nodes[j].id)
  }

  ghost predicate AllRevisit(g: Graph, root: Id, cycles: seq<seq<Id>>) {
    forall c :: c in cycles ==> RevisitingWalk(g, root, c)
  }

  ghost predicate Reported(g: Graph, cis: seq<ConfigItem>, root: Id, maxDepth: nat, maxNodes: nat, s: Search) {
    && s.seen == Depths(root, s.nodes).Keys && Placed(g, root, Depths(root, s.nodes), maxDepth)
    && Listed(cis, root, s.nodes) && |s.nodes| <= maxNodes && AllRevisit(g, root, s.cycles)
  }

  /** Depths map exactly the root and the listed nodes. */
  lemma {:induction false} DepthsHold(root: Id, nodes: seq<ImpactNode>)
    requires forall i :: 0 <= i < |nodes| ==> nodes[i].id != root
    requires forall i, j :: 0 <= i < j < |nodes| ==> nodes[i].id != nodes[j].id
    ensures var d := Depths(root, nodes);
            && root in d && d[root] == 0
            && (forall i :: 0 <= i < |nodes| ==> nodes[i].id in d && d[nodes[i].id] == nodes[i].depth)
            && (forall x :: x in d && x != root ==> exists i :: 0 <= i < |nodes| && nodes[i].id == x)
  {
    if nodes != [] {
      var front := nodes[..|nodes| - 1];
      DepthsHold(root, front);
      forall x | x in Depths(root, nodes) && x != root ensures exists i :: 0 <= i < |nodes| && nodes[i].id == x {
        if x != nodes[|nodes| - 1].id {
          var i :| 0 <= i < |front| && front[i].id == x;
          assert nodes[i].id == x;
        }
      }
    }
  }

  // ----- The frontier -----

  /** Cut off at the depth bound, or expanded. */
  ghost predicate Settled(g: Graph, d: map<Id, nat>, x: Id, maxDepth: nat, truncated: bool)
    requires x in d
  {
    || (maxDepth <= d[x] && (truncated || Succ(g, x) == []))
    || forall y :: y in Succ(g, x) ==> y in d && d[y] <= d[x] + 1
  }

  /** Every node met is settled or waiting at depth `level` or deeper. */
  ghost predicate Covered(g: Graph, root: Id, d: map<Id, nat>, waiting: set<Id>, level: nat, maxDepth: nat,
                          truncated: bool) {
    && root in d && d[root] == 0
    && (forall x :: x in d ==> d[x] <= level + 1 && (x in waiting || Settled(g, d, x, maxDepth, truncated)))
    && (forall x :: x in waiting ==> x in d && level <= d[x])
  }

  /** While depth `level` is being expanded, the ball of that radius has been met. */
  lemma {:induction false} BallIsMet(g: Graph, root: Id, d: map<Id, nat>, waiting: set<Id>, level: nat, maxDepth: nat,
                                    truncated: bool, k: nat)
    requires Covered(g, root, d, waiting, level, maxDepth, truncated)
    requires k <= level <= maxDepth
    ensures forall x :: x in Ball(g, root, k) ==> x in d && d[x] <= k
  {
    if k > 0 {
      BallIsMet(g, root, d, waiting, level, maxDepth, truncated, k - 1);
      forall x | x in Ball(g, root, k) ensures x in d && d[x] <= k {
        if x !in Ball(g, root, k - 1) {
          var u :| u in Ball(g, root, k - 1) && x in Succ(g, u);
          assert Settled(g, d, u, maxDepth, truncated);
        }
      }
    }
  }

  lemma NewRadius(g: Graph, root: Id, d: map<Id, nat>, waiting: set<Id>, level: nat, maxDepth: nat,
                  truncated: bool, x: Id, y: Id)
    requires Covered(g, root, d, waiting, level, maxDepth, truncated) && Placed(g, root, d, maxDepth)
    requires level < maxDepth && x in d && d[x] == level
    requires y in Succ(g, x) && y !in d
    ensures AtRadius(g, root, y, level + 1)
    ensures Placed(g, root, d[y := level + 1], maxDepth)
  {
    BallIsMet(g, root, d, waiting, level, maxDepth, truncated, level);
    assert x in Ball(g, root, level);
  }

  lemma CoverNew(g: Graph, root: Id, d: map<Id, nat>, waiting: set<Id>, level: nat, maxDepth: nat, truncated: bool,
                 y: Id)
    requires Covered(g, root, d, waiting, level, maxDepth, truncated) && y !in d
    ensures Covered(g, root, d[y := level + 1], waiting + {y}, level, maxDepth, truncated)
  {
    var d' := d[y := level + 1];
    forall x | x in d' && x !in waiting + {y} ensures Settled(g, d', x, maxDepth, truncated) {
      assert Settled(g, d, x, maxDepth, truncated);
    }
  }

  /** A queued visit carries a walk from the root to its node, all of it met. */
  ghost predicate ValidVisit(g: Graph, root: Id, d: map<Id, nat>, v: Visit) {
    && v.node in d && d[v.node] == v.depth
    && WalkBetween(g, root, v.node, v.path)
    && forall x :: x in v.path ==> x in d
  }

  /** The queue is in breadth-first order, at depths `level` and `level + 1`. */
  ghost predicate InOrder(g: Graph, root: Id, d: map<Id, nat>, queue: seq<Visit>, level: nat) {
    && (forall i :: 0 <= i < |queue| ==> ValidVisit(g, root, d, queue[i]) && level <= queue[i].depth <= level + 1)
    && (forall i, j :: 0 <= i < j < |queue| ==> queue[i].depth <= queue[j].depth)
  }

  function Waiting(queue: seq<Visit>): set<Id> {
    if queue == [] then {} else {queue[0].node} + Waiting(queue[1..])
  }

  lemma {:induction false} WaitingSnoc(queue: seq<Visit>, v: Visit)
    ensures Waiting(queue + [v]) == Waiting(queue) + {v.node}
  {
    if queue == [] {
      assert [v][1..] == [];
    } else {
      assert (queue + [v])[1..] == queue[1..] + [v];
      WaitingSnoc(queue[1..], v);
    }
  }

  lemma {:induction false} WaitingFrom(g: Graph, root: Id, d: map<Id, nat>, queue: seq<Visit>, level: nat)
    requires InOrder(g, root, d, queue, level) && queue != []
    ensures forall x :: x in Waiting(queue) ==> x in d && queue[0].depth <= d[x]
  {
    if |queue| > 1 {
      var rest := queue[1..];
      assert forall i :: 0 <= i < |rest| ==> rest[i] == queue[i + 1];
      WaitingFrom(g, root, d, rest, level);
      assert queue[0].depth <= queue[1].depth;
    }
    assert ValidVisit(g, root, d, queue[0]);
  }

  lemma QueueTail(g: Graph, root: Id, d: map<Id, nat>, queue: seq<Visit>, level: nat)
    requires InOrder(g, root, d, queue, level) && queue != []
    ensures InOrder(g, root, d, queue[1..], queue[0].depth) && ValidVisit(g, root, d, queue[0])
  {
    var rest := queue[1..];
    assert forall i :: 0 <= i < |rest| ==> rest[i] == queue[i + 1];
  }

  lemma ValidStays(g: Graph, root: Id, d: map<Id, nat>, v: Visit, y: Id, k: nat)
    requires ValidVisit(g, root, d, v) && y !in d
    ensures ValidVisit(g, root, d[y := k], v)
  {
  }

  lemma NewVisit(g: Graph, root: Id, d: map<Id, nat>, head: Visit, y: Id)
    requires ValidVisit(g, root, d, head) && y in Succ(g, head.node) && y !in d
    ensures ValidVisit(g, root, d[y := head.depth + 1], Visit(y, head.depth + 1, head.path + [y]))
  {
    JoinWalks(g, head.path, [y]);
  }

  lemma QueueSnoc(g: Graph, root: Id, d: map<Id, nat>, queue: seq<Visit>, level: nat, v: Visit)
    requires InOrder(g, root, d, queue, level)
    requires v.node !in d && v.depth == level + 1 && ValidVisit(g, root, d[v.node := v.depth], v)
    ensures InOrder(g, root, d[v.node := v.depth], queue + [v], level)
  {
    forall i | 0 <= i < |queue| ensures ValidVisit(g, root, d[v.node := v.depth], queue[i]) {
      ValidStays(g, root, d, queue[i], v.node, v.depth);
    }
  }

  /** The search waits in order, and nothing met was lost. */
  ghost predicate Frontier(g: Graph, root: Id, d: map<Id, nat>, queue: seq<Visit>, extra: set<Id>, level: nat,
                           maxDepth: nat, truncated: bool)
  {
    InOrder(g, root, d, queue, level) && Covered(g, root, d, Waiting(queue) + extra, level, maxDepth, truncated)
  }

  /** Between two nodes of the outer loop. */
  ghost predicate Between(g: Graph, cis: seq<ConfigItem>, root: Id, maxDepth: nat, maxNodes: nat, s: Search,
                          level: nat) {
    && Reported(g, cis, root, maxDepth, maxNodes, s)
    && if s.stopped then s.truncated && s.queue == []
       else Frontier(g, root, Depths(root, s.nodes), s.queue, {}, level, maxDepth, s.truncated)
  }

  /** Inside the inner loop: `head` has been taken and its first `j` links followed. */
  ghost predicate During(g: Graph, cis: seq<ConfigItem>, root: Id, maxDepth: nat, maxNodes: nat, head: Visit,
                         links: seq<Link>, j: nat, s: Search)
    requires j <= |links|
  {
    && Reported(g, cis, root, maxDepth, maxNodes, s)
    && if s.stopped then s.truncated && s.queue == []
       else
         && Frontier(g, root, Depths(root, s.nodes), s.queue, {head.node}, head.depth, maxDepth, s.truncated)
         && ValidVisit(g, root, Depths(root, s.nodes), head) && head.depth < maxDepth
         && forall k :: 0 <= k < j ==> links[k].source in s.seen
  }

  lemma NewCycle(g: Graph, root: Id, d: map<Id, nat>, head: Visit, y: Id)
    requires ValidVisit(g, root, d, head) && y in head.path && y in Succ(g, head.node)
    ensures RevisitingWalk(g, root, head.path + [y]) && y in d
  {
    JoinWalks(g, head.path, [y]);
    var c := head.path + [y];
    assert c[..|c| - 1] == head.path;
  }

  /** Following one more link keeps everything known, whatever its case. */
  lemma FollowKeeps(g: Graph, cis: seq<ConfigItem>, root: Id, maxDepth: nat, maxNodes: nat, head: Visit,
                    links: seq<Link>, j: nat, s: Search)
    requires j < |links| && During(g, cis, root, maxDepth, maxNodes, head, links, j, s)
    requires links[j].source in Succ(g, head.node) && Known(cis, links[j].source)
    ensures During(g, cis, root, maxDepth, maxNodes, head, links, j + 1, Follow(cis, maxNodes, head, s, links[j]))
  {
    var y, d := links[j].source, Depths(root, s.nodes);
    if s.stopped {
    } else if y in head.path {
      NewCycle(g, root, d, head, y);
    } else if y in s.seen || |s.nodes| >= maxNodes {
    } else {
      FollowNewKeeps(g, cis, root, maxDepth, maxNodes, head, links, j, s);
    }
  }

  lemma FollowNewKeeps(g: Graph, cis: seq<ConfigItem>, root: Id, maxDepth: nat, maxNodes: nat, head: Visit,
                       links: seq<Link>, j: nat, s: Search)
    requires j < |links| && During(g, cis, root, maxDepth, maxNodes, head, links, j, s)
    requires links[j].source in Succ(g, head.node) && Known(cis, links[j].source)
    requires !s.stopped && links[j].source !in head.path && links[j].source !in s.seen && |s.nodes| < maxNodes
    ensures During(g, cis, root, maxDepth, maxNodes, head, links, j + 1, Follow(cis, maxNodes, head, s, links[j]))
  {
    var y, d, l := links[j].source, Depths(root, s.nodes), links[j];
    FollowNew(cis, maxNodes, head, s, l);
    var s' := Follow(cis, maxNodes, head, s, l);
    FrontierNew(g, root, d, s.queue, head, y, maxDepth, s.truncated);
    PlaceNew(g, root, d, maxDepth, head, s.queue, s.truncated, y);
    ReportNew(g, cis, root, maxDepth, maxNodes, head, s, l);
    assert forall k :: 0 <= k < j + 1 ==> links[k].source in s'.seen;
    JoinParts(g, cis, root, maxDepth, maxNodes, head, links, j + 1, s', d[y := head.depth + 1],
              s.queue + [Visit(y, head.depth + 1, head.path + [y])], s.truncated);
  }

  lemma FollowNew(cis: seq<ConfigItem>, maxNodes: nat, head: Visit, s: Search, l: Link)
    requires Known(cis, l.source)
    requires !s.stopped && l.source !in head.path && l.source !in s.seen && |s.nodes| < maxNodes
    ensures var s' := Follow(cis, maxNodes, head, s, l);
            && s'.seen == s.seen + {l.source} && s'.cycles == s.cycles
            && s'.truncated == s.truncated && s'.stopped == s.stopped
            && s'.queue == s.queue + [Visit(l.source, head.depth + 1, head.path + [l.source])]
            && |s'.nodes| == |s.nodes| + 1 && s'.nodes[..|s.nodes|] == s.nodes
            && s'.nodes == s.nodes + [s'.nodes[|s.nodes|]]
            && s'.nodes[|s.nodes|].id == l.source && s'.nodes[|s.nodes|].depth == head.depth + 1
            && Named(cis, s'.nodes[|s.nodes|])
  {
  }

  lemma JoinParts(g: Graph, cis: seq<ConfigItem>, root: Id, maxDepth: nat, maxNodes: nat, head: Visit,
                  links: seq<Link>, j: nat, s: Search, d: map<Id, nat>, queue: seq<Visit>, truncated: bool)
    requires j <= |links| && Reported(g, cis, root, maxDepth, maxNodes, s) && !s.stopped
    requires d == Depths(root, s.nodes) && head.depth < maxDepth && s.queue == queue && s.truncated == truncated
    requires Frontier(g, root, d, queue, {head.node}, head.depth, maxDepth, truncated)
    requires ValidVisit(g, root, d, head)
    requires forall k :: 0 <= k < j ==> links[k].source in s.seen
    ensures During(g, cis, root, maxDepth, maxNodes, head, links, j, s)
  {
  }

  lemma FrontierNew(g: Graph, root: Id, d: map<Id, nat>, queue: seq<Visit>, head: Visit, y: Id, maxDepth: nat,
                    truncated: bool)
    requires Frontier(g, root, d, queue, {head.node}, head.depth, maxDepth, truncated)
    requires ValidVisit(g, root, d, head) && y in Succ(g, head.node) && y !in d
    ensures var d', v := d[y := head.depth + 1], Visit(y, head.depth + 1, head.path + [y]);
            && Frontier(g, root, d', queue + [v], {head.node}, head.depth, maxDepth, truncated)
            && ValidVisit(g, root, d', head)
  {
    var v := Visit(y, head.depth + 1, head.path + [y]);
    NewVisit(g, root, d, head, y);
    ValidStays(g, root, d, head, y, head.depth + 1);
    QueueSnoc(g, root, d, queue, head.depth, v);
    WaitingSnoc(queue, v);
    CoverNew(g, root, d, Waiting(queue) + {head.node}, head.depth, maxDepth, truncated, y);
    assert Waiting(queue + [v]) + {head.node} == Waiting(queue) + {head.node} + {y};
  }

  /** A node met from `head` is one step further out. */
  lemma PlaceNew(g: Graph, root: Id, d: map<Id, nat>, maxDepth: nat, head: Visit, queue: seq<Visit>,
                 truncated: bool, y: Id)
    requires Frontier(g, root, d, queue, {head.node}, head.depth, maxDepth, truncated)
    requires Placed(g, root, d, maxDepth) && ValidVisit(g, root, d, head) && head.depth < maxDepth
    requires y in Succ(g, head.node) && y !in d
    ensures root in d && Placed(g, root, d[y := head.depth + 1], maxDepth)
  {
    NewRadius(g, root, d, Waiting(queue) + {head.node}, head.depth, maxDepth, truncated, head.node, y);
  }

  lemma ReportNew(g: Graph, cis: seq<ConfigItem>, root: Id, maxDepth: nat, maxNodes: nat, head: Visit, s: Search,
                  l: Link)
    requires Reported(g, cis, root, maxDepth, maxNodes, s) && Known(cis, l.source) && root in s.seen
    requires !s.stopped && l.source !in head.path && l.source !in s.seen && |s.nodes| < maxNodes
    requires Placed(g, root, Depths(root, s.nodes)[l.source := head.depth + 1], maxDepth)
    ensures var s' := Follow(cis, maxNodes, head, s, l);
            && Reported(g, cis, root, maxDepth, maxNodes, s')
            && Depths(root, s'.nodes) == Depths(root, s.nodes)[l.source := head.depth + 1]
  {
    FollowNew(cis, maxNodes, head, s, l);
    ReportNext(g, cis, root, maxDepth, maxNodes, s, Follow(cis, maxNodes, head, s, l), l.source, head.depth + 1);
  }

  lemma ReportNext(g: Graph, cis: seq<ConfigItem>, root: Id, maxDepth: nat, maxNodes: nat, s: Search, t: Search,
                   x: Id, k: nat)
    requires Reported(g, cis, root, maxDepth, maxNodes, s) && Known(cis, x) && x !in s.seen && root in s.seen
    requires t.seen == s.seen + {x} && t.cycles == s.cycles && |s.nodes| < maxNodes
    requires |t.nodes| == |s.nodes| + 1 && t.nodes[..|s.nodes|] == s.nodes
    requires var n := t.nodes[|s.nodes|]; n.id == x && n.depth == k && Named(cis, n)
    requires Placed(g, root, Depths(root, s.nodes)[x := k], maxDepth)
    ensures Reported(g, cis, root, maxDepth, maxNodes, t)
    ensures Depths(root, t.nodes) == Depths(root, s.nodes)[x := k]
  {
    DepthsNext(root, s.nodes, t.nodes, x, k);
    ListNew(cis, root, s.nodes, t.nodes[|s.nodes|]);
    assert t.nodes == s.nodes + [t.nodes[|s.nodes|]];
    StillReported(g, cis, root, maxDepth, maxNodes, s, t, Depths(root, s.nodes)[x := k]);
  }

  lemma DepthsNext(root: Id, nodes: seq<ImpactNode>, more: seq<ImpactNode>, x: Id, k: nat)
    requires |more| == |nodes| + 1 && more[..|nodes|] == nodes
    requires more[|nodes|].id == x && more[|nodes|].depth == k
    ensures Depths(root, more) == Depths(root, nodes)[x := k]
  {
  }

  lemma StillReported(g: Graph, cis: seq<ConfigItem>, root: Id, maxDepth: nat, maxNodes: nat, s: Search, t: Search,
                      d: map<Id, nat>)
    requires AllRevisit(g, root, s.cycles) && t.cycles == s.cycles
    requires d == Depths(root, t.nodes) && t.seen == d.Keys && Placed(g, root, d, maxDepth)
    requires Listed(cis, root, t.nodes) && |t.nodes| <= maxNodes
    ensures Reported(g, cis, root, maxDepth, maxNodes, t)
  {
  }

  lemma ListNew(cis: seq<ConfigItem>, root: Id, nodes: seq<ImpactNode>, n: ImpactNode)
    requires Listed(cis, root, nodes) && n.id != root && n.id !in Depths(root, nodes)
    requires Named(cis, n) && Known(cis, n.id)
    ensures Listed(cis, root, nodes + [n])
  {
    DepthsHold(root, nodes);
  }

  // ----- One round of the outer loop -----

  lemma Start(g: Graph, cis: seq<ConfigItem>, root: Id, maxDepth: nat, maxNodes: nat)
    ensures Between(g, cis, root, maxDepth, maxNodes,
                    Search([Visit(root, 0, [root])], {root}, [], [], false, false), 0)
  {
    assert WalkBetween(g, root, root, [root]);
    assert [Visit(root, 0, [root])][1..] == [];
  }

  lemma CutOff(g: Graph, cis: seq<ConfigItem>, root: Id, maxDepth: nat, maxNodes: nat, s: Search, level: nat)
    requires Between(g, cis, root, maxDepth, maxNodes, s, level)
    requires s.queue != [] && s.queue[0].depth >= maxDepth
    ensures var head := s.queue[0];
            Between(g, cis, root, maxDepth, maxNodes,
                    s.(queue := s.queue[1..], truncated := s.truncated || Succ(g, head.node) != []), head.depth)
  {
    var d, head := Depths(root, s.nodes), s.queue[0];
    QueueTail(g, root, d, s.queue, level);
    WaitingFrom(g, root, d, s.queue, level);
    assert Waiting(s.queue) + {} == {head.node} + Waiting(s.queue[1..]);
    CoverCut(g, root, d, Waiting(s.queue[1..]), head.node, level, maxDepth, s.truncated);
    assert Waiting(s.queue[1..]) + {} == Waiting(s.queue[1..]);
  }

  lemma CoverCut(g: Graph, root: Id, d: map<Id, nat>, waiting: set<Id>, x: Id, level: nat, maxDepth: nat,
                 truncated: bool)
    requires Covered(g, root, d, {x} + waiting, level, maxDepth, truncated)
    requires x in d && maxDepth <= d[x] && forall y :: y in waiting ==> y in d && d[x] <= d[y]
    ensures Covered(g, root, d, waiting, d[x], maxDepth, truncated || Succ(g, x) != [])
  {
    forall y | y in d && y !in waiting ensures Settled(g, d, y, maxDepth, truncated || Succ(g, x) != []) {
      assert y == x || Settled(g, d, y, maxDepth, truncated);
    }
  }

  lemma Begin(g: Graph, cis: seq<ConfigItem>, root: Id, maxDepth: nat, maxNodes: nat, links: seq<Link>,
              s: Search, level: nat)
    requires Between(g, cis, root, maxDepth, maxNodes, s, level)
    requires s.queue != [] && s.queue[0].depth < maxDepth
    ensures During(g, cis, root, maxDepth, maxNodes, s.queue[0], links, 0, s.(queue := s.queue[1..]))
  {
    var d := Depths(root, s.nodes);
    QueueTail(g, root, d, s.queue, level);
    WaitingFrom(g, root, d, s.queue, level);
    assert Waiting(s.queue) + {} == Waiting(s.queue[1..]) + {s.queue[0].node};
  }

  lemma Finish(g: Graph, cis: seq<ConfigItem>, root: Id, maxDepth: nat, maxNodes: nat, head: Visit,
               links: seq<Link>, s: Search)
    requires During(g, cis, root, maxDepth, maxNodes, head, links, |links|, s)
    requires forall y :: y in Succ(g, head.node) ==> exists k :: 0 <= k < |links| && links[k].source == y
    ensures Between(g, cis, root, maxDepth, maxNodes, s, head.depth)
  {
    if !s.stopped {
      var d := Depths(root, s.nodes);
      assert Settled(g, d, head.node, maxDepth, s.truncated);
      assert forall x :: x in Waiting(s.queue) ==> x in Waiting(s.queue) + {head.node};
      assert Waiting(s.queue) + {} == Waiting(s.queue);
    }
  }

  lemma {:induction false} FollowAllKeeps(g: Graph, cis: seq<ConfigItem>, root: Id, maxDepth: nat, maxNodes: nat,
                                         head: Visit, links: seq<Link>, j: nat, s: Search) returns (t: Search)
    requires j <= |links| && During(g, cis, root, maxDepth, maxNodes, head, links, 0, s)
    requires forall i :: 0 <= i < |links| ==> links[i].source in Succ(g, head.node)
    requires AllKnown(cis, links)
    ensures During(g, cis, root, maxDepth, maxNodes, head, links, j, t)
    ensures t == FollowAll(cis, maxNodes, head, s, links[..j])
  {
    if j == 0 {
      t := s;
    } else {
      var before := FollowAllKeeps(g, cis, root, maxDepth, maxNodes, head, links, j - 1, s);
      FollowAllNext(cis, maxNodes, head, links, j - 1, s);
      FollowKeeps(g, cis, root, maxDepth, maxNodes, head, links, j - 1, before);
      t := Follow(cis, maxNodes, head, before, links[j - 1]);
    }
  }

  lemma FollowAllNext(cis: seq<ConfigItem>, maxNodes: nat, head: Visit, links: seq<Link>, j: nat, s: Search)
    requires j < |links| && AllKnown(cis, links)
    ensures FollowAll(cis, maxNodes, head, s, links[..j + 1])
            == Follow(cis, maxNodes, head, FollowAll(cis, maxNodes, head, s, links[..j]), links[j])
  {
    assert links[..j + 1][..j] == links[..j];
  }

  lemma {:induction false} FollowAllProgress(cis: seq<ConfigItem>, maxNodes: nat, head: Visit, links: seq<Link>,
                                             s: Search)
    requires AllKnown(cis, links)
    ensures var t := FollowAll(cis, maxNodes, head, s, links);
            s.seen <= t.seen && (t.seen == s.seen ==> |t.queue| <= |s.queue|)
  {
    if links != [] {
      FollowAllProgress(cis, maxNodes, head, links[..|links| - 1], s);
    }
  }

  lemma LinkFacts(cis: seq<ConfigItem>, t: Id)
    ensures var links, next := SortedLinks(cis, t), Succ(DependentGraph(cis), t);
            && AllKnown(cis, links)
            && (forall i :: 0 <= i < |links| ==> links[i].source in next)
            && (forall y :: y in next ==> exists k :: 0 <= k < |links| && links[k].source == y)
            && (next == [] <==> Links(ReverseOf(cis), t) == [])
  {
    var links, sources := SortedLinks(cis, t), MapAll(SortedLinks(cis, t), LINK_SOURCE);
    SortSorts(Links(ReverseOf(cis), t), LINK_KEY);
    assert |multiset(links)| == |links|;
    forall i | 0 <= i < |links| ensures links[i].source in sources && Known(cis, links[i].source) {
      assert sources[i] == links[i].source && links[i] in links;
      ReverseHoldsDeclared(cis, t, links[i]);
      var ci :| ci in cis && Declares(ci, t, links[i]);
      var k :| 0 <= k < |cis| && cis[k] == ci;
    }
    forall y | y in sources ensures exists k :: 0 <= k < |links| && links[k].source == y {
      var i :| 0 <= i < |sources| && sources[i] == y;
      assert links[i].source == y;
    }
  }

  /** Take the head of the queue and either cut it off or follow all its links. */
  function Round(cis: seq<ConfigItem>, maxDepth: nat, maxNodes: nat, s: Search): Search
    requires s.queue != []
  {
    var head, rest := s.queue[0], s.(queue := s.queue[1..]);
    if head.depth >= maxDepth then
      rest.(truncated := s.truncated || Links(ReverseOf(cis), head.node) != [])
    else
      LinkFacts(cis, head.node);
      FollowAll(cis, maxNodes, head, rest, SortedLinks(cis, head.node))
  }

  lemma RoundKeeps(cis: seq<ConfigItem>, root: Id, maxDepth: nat, maxNodes: nat, s: Search, level: nat)
    requires s.queue != [] && Between(DependentGraph(cis), cis, root, maxDepth, maxNodes, s, level)
    ensures Between(DependentGraph(cis), cis, root, maxDepth, maxNodes, Round(cis, maxDepth, maxNodes, s),
                    s.queue[0].depth)
  {
    var g, head := DependentGraph(cis), s.queue[0];
    LinkFacts(cis, head.node);
    if head.depth >= maxDepth {
      CutOff(g, cis, root, maxDepth, maxNodes, s, level);
    } else {
      var links := SortedLinks(cis, head.node);
      Begin(g, cis, root, maxDepth, maxNodes, links, s, level);
      var t := FollowAllKeeps(g, cis, root, maxDepth, maxNodes, head, links, |links|, s.(queue := s.queue[1..]));
      assert links[..|links|] == links;
      Finish(g, cis, root, maxDepth, maxNodes, head, links, Round(cis, maxDepth, maxNodes, s));
    }
  }

  function Ids(cis: seq<ConfigItem>): set<Id> {
    set i | 0 <= i < |cis| :: cis[i].id
  }

  lemma SeenAreItems(g: Graph, cis: seq<ConfigItem>, root: Id, maxDepth: nat, maxNodes: nat, s: Search)
    requires Reported(g, cis, root, maxDepth, maxNodes, s) && Known(cis, root)
    ensures s.seen <= Ids(cis)
  {
    DepthsHold(root, s.nodes);
    forall x | x in s.seen ensures x in Ids(cis) {
      assert Known(cis, x);
      var i :| 0 <= i < |cis| && cis[i].id == x;
    }
  }

  /** A round leaves fewer items unmet, or as many and a shorter queue. */
  lemma RoundProgress(cis: seq<ConfigItem>, root: Id, maxDepth: nat, maxNodes: nat, s: Search, level: nat)
    requires s.queue != [] && Known(cis, root)
    requires Between(DependentGraph(cis), cis, root, maxDepth, maxNodes, s, level)
    ensures var t := Round(cis, maxDepth, maxNodes, s);
            || |Ids(cis) - t.seen| < |Ids(cis) - s.seen|
            || (t.seen == s.seen && |t.queue| < |s.queue|)
  {
    var t := Round(cis, maxDepth, maxNodes, s);
    RoundKeeps(cis, root, maxDepth, maxNodes, s, level);
    SeenAreItems(DependentGraph(cis), cis, root, maxDepth, maxNodes, t);
    if s.queue[0].depth < maxDepth {
      LinkFacts(cis, s.queue[0].node);
      FollowAllProgress(cis, maxNodes, s.queue[0], SortedLinks(cis, s.queue[0].node), s.(queue := s.queue[1..]));
      FewerOrShorter(Ids(cis), s, t);
    }
  }

  lemma FewerOrShorter(ids: set<Id>, s: Search, t: Search)
    requires s.seen <= t.seen <= ids && (t.seen == s.seen ==> |t.queue| < |s.queue|)
    ensures |ids - t.seen| < |ids - s.seen| || (t.seen == s.seen && |t.queue| < |s.queue|)
  {
    if t.seen != s.seen { FewerLeft(ids, s.seen, t.seen); }
  }

  lemma FewerLeft(ids: set<Id>, seen: set<Id>, more: set<Id>)
    requires seen < more <= ids
    ensures |ids - more| < |ids - seen|
  {
    var x :| x in more && x !in seen;
    assert x in ids - seen && x !in ids - more;
    SmallerSet(ids - more, ids - seen);
  }

  // ----- The result -----

  /**
    What an impact report promises: distinct dependents, within both bounds, each
    at its true shortest distance and named as the inventory names it; every
    cycle a walk that comes back on itself; and, unless the report says it was
    truncated, every transitive dependent.
  */
  ghost predicate Exact(cis: seq<ConfigItem>, root: Id, maxDepth: nat, maxNodes: nat, r: Report) {
    var g, nodes := DependentGraph(cis), r.dependents;
    && |nodes| <= maxNodes
    && (forall i, j :: 0 <= i < j < |nodes| ==> nodes[i].id != nodes[j].id)
    && (forall i :: 0 <= i < |nodes| ==>
          && nodes[i].id != root && nodes[i].depth <= maxDepth && Named(cis, nodes[i])
          && ShortestDistance(g, root, nodes[i].id, nodes[i].depth))
    && AllRevisit(g, root, r.cycles)
    && (!r.truncated ==> forall x :: x != root && Reaches(g, root, x) ==>
          exists i :: 0 <= i < |nodes| && nodes[i].id == x)
  }

  lemma EndIsExact(cis: seq<ConfigItem>, root: Id, maxDepth: nat, maxNodes: nat, s: Search, level: nat)
    requires s.queue == [] && Between(DependentGraph(cis), cis, root, maxDepth, maxNodes, s, level)
    ensures Exact(cis, root, maxDepth, maxNodes, Report(s.nodes, s.cycles, s.truncated))
  {
    var g, d := DependentGraph(cis), Depths(root, s.nodes);
    DepthsHold(root, s.nodes);
    DepthsAreDistances(g, root, s.nodes, maxDepth);
    if !s.truncated {
      NothingLeftOut(g, root, d, level, maxDepth);
    }
  }

  lemma DepthsAreDistances(g: Graph, root: Id, nodes: seq<ImpactNode>, maxDepth: nat)
    requires Placed(g, root, Depths(root, nodes), maxDepth)
    requires forall i :: 0 <= i < |nodes| ==>
               nodes[i].id in Depths(root, nodes) && Depths(root, nodes)[nodes[i].id] == nodes[i].depth
    ensures forall i :: 0 <= i < |nodes| ==>
              nodes[i].depth <= maxDepth && ShortestDistance(g, root, nodes[i].id, nodes[i].depth)
  {
    forall i | 0 <= i < |nodes| ensures ShortestDistance(g, root, nodes[i].id, nodes[i].depth) {
      RadiusIsDistance(g, root, nodes[i].id, nodes[i].depth);
    }
  }

  /** With nothing waiting and nothing cut off, everything reachable has been met. */
  lemma NothingLeftOut(g: Graph, root: Id, d: map<Id, nat>, level: nat, maxDepth: nat)
    requires Covered(g, root, d, {}, level, maxDepth, false)
    ensures forall x :: Reaches(g, root, x) ==> x in d
  {
    forall x, y | x in d.Keys && y in Succ(g, x) ensures y in d.Keys {
      assert Settled(g, d, x, maxDepth, false);
    }
    ClosedHoldsReachable(g, d.Keys, root);
  }
}
