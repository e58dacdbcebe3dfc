/**
  Write-time cycle detection for card dependencies (`dependency_graph.py`) and
  the two operations that consult it: governed creation and dependency
  amendment (`card_store.py`).
*/
module DependencyGraph {
  import opened Graphs
  import opened Sequences
  import opened Wrappers

  /**
    What the depth-first search knows between two steps: everything met is
    reachable, and every successor of a visited node has been met.
  */
  ghost predicate Explored(g: Graph, start: Id, universe: set<Id>, seen: set<Id>, stack: seq<Id>) {
    && Nodes(g) <= universe && seen <= universe
    && (forall x :: x in stack ==> x in universe)
    && (forall x :: x in seen || x in stack ==> Reaches(g, start, x))
    && (start in seen || start in stack)
    && (forall x, y :: x in seen && y in Succ(g, x) ==> y in seen || y in stack)
  }

  lemma Pop(g: Graph, start: Id, universe: set<Id>, seen: set<Id>, stack: seq<Id>)
    requires Explored(g, start, universe, seen, stack)
    requires stack != [] && stack[|stack| - 1] in seen
    ensures Explored(g, start, universe, seen, stack[..|stack| - 1])
  {
    var rest := stack[..|stack| - 1];
    assert stack == rest + [stack[|stack| - 1]];
    assert forall x :: x in stack <==> x in rest || x == stack[|stack| - 1];
  }

  lemma Visit(g: Graph, start: Id, universe: set<Id>, seen: set<Id>, stack: seq<Id>)
    requires Explored(g, start, universe, seen, stack)
    requires stack != [] && stack[|stack| - 1] !in seen
    ensures var current := stack[|stack| - 1];
            && Explored(g, start, universe, seen + {current}, stack[..|stack| - 1] + Succ(g, current))
            && |universe - (seen + {current})| < |universe - seen|
  {
    var current, rest := stack[|stack| - 1], stack[..|stack| - 1];
    assert stack == rest + [current];
    assert forall x :: x in stack <==> x in rest || x == current;
    forall y | y in Succ(g, current) ensures Reaches(g, start, y) && y in Nodes(g) {
      ReachesStep(g, start, current, y);
    }
    assert current in universe - seen;
    assert current !in universe - (seen + {current});
    SmallerSet(universe - (seen + {current}), universe - seen);
  }

  /** True exactly when the dependency is the card itself or already reaches it. */
  method WouldCreateCycle(edges: Graph, cardId: Id, dependencyId: Id) returns (cycle: bool)
    ensures cycle <==> Reaches(edges, dependencyId, cardId)
  {
    ReachesSelf(edges, dependencyId);
    if cardId == dependencyId {
      return true;
    }
    var seen: set<Id> := {};
    var stack := [dependencyId];
    ghost var universe := Nodes(edges) + {dependencyId};
    while stack != []
      invariant cardId !in seen
      invariant Explored(edges, dependencyId, universe, seen, stack)
      decreases |universe - seen|, |stack|
    {
      var current := stack[|stack| - 1];
      ghost var before := stack;
      stack := stack[..|stack| - 1];
      if current == cardId {
        return true;
      }
      if current in seen {
        Pop(edges, dependencyId, universe, seen, before);
        continue;
      }
      Visit(edges, dependencyId, universe, seen, before);
      seen := seen + {current};
      stack := stack + Succ(edges, current);
    }
    ClosedHoldsReachable(edges, seen, dependencyId);
    return false;
  }

  // ----- What adding edges out of one node does to acyclicity -----

  /** The graph with the dependencies `ds` added to those of `n`. */
  function Extend(g: Graph, n: Id, ds: seq<Id>): Graph {
    g[n := Succ(g, n) + ds]
  }

  /** A walk of the extended graph is matched from its last new edge on. */
  lemma {:induction false} WalkAfterLastNewEdge(g: Graph, n: Id, ds: seq<Id>, p: seq<Id>)
    requires IsWalk(Extend(g, n, ds), p)
    ensures Reaches(g, p[0], p[|p| - 1]) || exists d :: d in ds && Reaches(g, d, p[|p| - 1])
  {
    ReachesSelf(g, p[|p| - 1]);
    if |p| > 1 {
      WalkTail(Extend(g, n, ds), p);
      WalkAfterLastNewEdge(g, n, ds, p[1..]);
      if Reaches(g, p[1], p[|p| - 1]) && p[1] in Succ(g, p[0]) {
        StepReaches(g, p[0], p[1], p[|p| - 1]);
      }
    }
  }

  /** The walk that goes round a closed walk once, starting after its edge `i`. */
  lemma Rotate(g: Graph, p: seq<Id>, i: nat) returns (q: seq<Id>)
    requires IsWalk(g, p) && i < |p| - 1 && p[0] == p[|p| - 1]
    ensures WalkBetween(g, p[i + 1], p[i], q)
  {
    var front, back := p[..i + 1], p[i + 1..|p| - 1];
    assert IsWalk(g, front);
    if back == [] {
      q := front;
    } else {
      forall k | 0 <= k < |back| - 1 ensures back[k + 1] in Succ(g, back[k]) {
        assert p[i + 1 + k + 1] in Succ(g, p[i + 1 + k]);
      }
      assert p[|p| - 2 + 1] in Succ(g, p[|p| - 2]);
      JoinWalks(g, back, front);
      q := back + front;
    }
  }

  lemma NewEdgeCloses(g: Graph, n: Id, ds: seq<Id>, d: Id)
    requires d in ds && Reaches(g, d, n)
    ensures !Acyclic(Extend(g, n, ds))
  {
    var h := Extend(g, n, ds);
    var p :| WalkBetween(g, d, n, p);
    assert forall x, y :: y in Succ(g, x) ==> y in Succ(h, x);
    assert IsWalk(h, p);
    JoinWalks(h, [n], p);
    assert IsWalk(h, [n] + p) && ([n] + p)[0] == ([n] + p)[|[n] + p| - 1];
  }

  lemma ClosedWalkNeedsOldOne(g: Graph, n: Id, ds: seq<Id>, p: seq<Id>)
    requires Acyclic(g) && forall d :: d in ds ==> !Reaches(g, d, n)
    requires IsWalk(Extend(g, n, ds), p) && |p| > 1
    ensures p[0] != p[|p| - 1]
  {
    var h := Extend(g, n, ds);
    if p[0] == p[|p| - 1] {
      if i :| 0 <= i < |p| - 1 && p[i + 1] !in Succ(g, p[i]) {
        assert p[i + 1] in Succ(h, p[i]);
        var q := Rotate(h, p, i);
        WalkAfterLastNewEdge(g, n, ds, q);
      } else {
        assert IsWalk(g, p);
      }
    }
  }

  /**
    Adding edges n -> ds to an acyclic graph keeps it acyclic if and only if no
    new dependency already reaches n.
  */
  lemma ExtendAcyclicExactly(g: Graph, n: Id, ds: seq<Id>)
    requires Acyclic(g)
    ensures Acyclic(Extend(g, n, ds)) <==> forall d :: d in ds ==> !Reaches(g, d, n)
  {
    if d :| d in ds && Reaches(g, d, n) {
      NewEdgeCloses(g, n, ds, d);
    } else {
      forall p | IsWalk(Extend(g, n, ds), p) && |p| > 1 ensures p[0] != p[|p| - 1] {
        ClosedWalkNeedsOldOne(g, n, ds, p);
      }
    }
  }

  /** The same for a node the graph does not have yet, whose edges are all new. */
  lemma BirthAcyclicExactly(g: Graph, n: Id, ds: seq<Id>)
    requires Acyclic(g) && n !in g
    ensures Acyclic(g[n := ds]) <==> forall d :: d in ds ==> !Reaches(g, d, n)
  {
    ExtendAcyclicExactly(g, n, ds);
    assert [] + ds == ds;
    assert Extend(g, n, ds) == g[n := ds];
  }

  lemma SubgraphAcyclic(g: Graph, h: Graph)
    requires Acyclic(g)
    requires forall x, y :: y in Succ(h, x) ==> y in Succ(g, x)
    ensures Acyclic(h)
  {
    forall p | IsWalk(h, p) && |p| > 1 ensures p[0] != p[|p| - 1] {
      assert IsWalk(g, p);
    }
  }

  // ----- The store and its two operations -----

  datatype Refusal =
    | MissingIdentifier | SelfDependency | MissingReason
    | UnknownCard | UnknownDependency | CycleRefused | PolicyRefused

  datatype Outcome = Created | AlreadyExists | Appended | NoOp | Refused(why: Refusal)

  datatype Operation =
    | Birth(id: Id, dependencies: seq<Id>, policyRefuses: bool)
    | AddDependency(card: Id, dependency: Id, reason: string)
    | RemoveDependency(card: Id, dependency: Id, reason: string)

  /** Why an amendment never reaches the graph, in the order the checks run. */
  function AmendmentError(g: Graph, card: Id, dependency: Id, reason: string): (e: Outcome)
  {
    if card == "" || dependency == "" then Refused(MissingIdentifier)
    else if card == dependency then Refused(SelfDependency)
    else if Blank(reason) then Refused(MissingReason)
    else if card !in g then Refused(UnknownCard)
    else if dependency !in g then Refused(UnknownDependency)
    else Appended
  }

  ghost function OutcomeOf(g: Graph, op: Operation): Outcome {
    match op
    case Birth(id, ds, policyRefuses) =>
      if id in g then AlreadyExists
      else if exists d :: d in ds && Reaches(g, d, id) then Refused(CycleRefused)
      else if policyRefuses then Refused(PolicyRefused)
      else Created
    case AddDependency(card, d, reason) =>
      var e := AmendmentError(g, card, d, reason);
      if e != Appended then e
      else if d in g[card] then NoOp
      else if Reaches(g, d, card) then Refused(CycleRefused)
      else Appended
    case RemoveDependency(card, d, reason) =>
      var e := AmendmentError(g, card, d, reason);
      if e != Appended then e
      else if d !in g[card] then NoOp
      else Appended
  }

  ghost function Step(g: Graph, op: Operation): Graph {
    var outcome := OutcomeOf(g, op);
    match op
    case Birth(id, ds, _) => if outcome == Created then g[id := ds] else g
    case AddDependency(card, d, _) => if outcome == Appended then g[card := g[card] + [d]] else g
    case RemoveDependency(card, d, _) => if outcome == Appended then g[card := RemoveFirst(g[card], d)] else g
  }

  /** One serialised operation keeps an acyclic store acyclic. */
  lemma StepKeepsAcyclic(g: Graph, op: Operation)
    requires Acyclic(g)
    ensures Acyclic(Step(g, op))
  {
    match op
    case Birth(id, ds, _) =>
      if OutcomeOf(g, op) == Created {
        BirthAcyclicExactly(g, id, ds);
      }
    case AddDependency(card, d, _) =>
      if OutcomeOf(g, op) == Appended {
        ExtendAcyclicExactly(g, card, [d]);
        assert Extend(g, card, [d]) == g[card := g[card] + [d]];
      }
    case RemoveDependency(card, d, _) =>
      if OutcomeOf(g, op) == Appended {
        RemoveFirstDrops(g[card], d);
        SubgraphAcyclic(g, Step(g, op));
      }
  }

  /**
    The guard is not too strict: in a store a run can produce, an operation is
    refused as a cycle exactly when carrying it out would close one.
  */
  lemma CycleRefusalIsExact(g: Graph, op: Operation)
    requires Acyclic(g)
    ensures op.Birth? && op.id !in g ==>
              (OutcomeOf(g, op) == Refused(CycleRefused) <==> !Acyclic(g[op.id := op.dependencies]))
    ensures op.AddDependency? && AmendmentError(g, op.card, op.dependency, op.reason) == Appended
            && op.dependency !in g[op.card] ==>
              (OutcomeOf(g, op) == Refused(CycleRefused)
               <==> !Acyclic(g[op.card := g[op.card] + [op.dependency]]))
  {
    if op.Birth? && op.id !in g {
      BirthAcyclicExactly(g, op.id, op.dependencies);
    } else if op.AddDependency? && op.card in g {
      ExtendAcyclicExactly(g, op.card, [op.dependency]);
      assert forall d :: d in [op.dependency] <==> d == op.dependency;
    }
  }

  /** An amendment that names two known and different cards and says why. */
  predicate WellPut(g: Graph, card: Id, dependency: Id, reason: string) {
    && card != "" && dependency != "" && card != dependency
    && (exists c :: c in reason && !Space(c)) && card in g && dependency in g
  }

  /**
    What an operation stores: a birth its own list, an addition one more entry at the
    end, a removal one entry less, and nothing anywhere else; each exactly when its
    outcome says so.
  */
  lemma StepStoresExactly(g: Graph, op: Operation)
    ensures var outcome, h := OutcomeOf(g, op), Step(g, op);
            match op
            case Birth(id, ds, policyRefuses) =>
              && (outcome == Created <==> id !in g && !policyRefuses && forall d :: d in ds ==> !Reaches(g, d, id))
              && (outcome == AlreadyExists <==> id in g)
              && h == if outcome == Created then g[id := ds] else g
            case AddDependency(card, d, reason) =>
              && (outcome == Appended
                  <==> WellPut(g, card, d, reason) && d !in g[card] && !Reaches(g, d, card))
              && (outcome == NoOp <==> WellPut(g, card, d, reason) && d in g[card])
              && (outcome == Appended ==> h == g[card := g[card] + [d]])
              && (outcome != Appended ==> h == g)
            case RemoveDependency(card, d, reason) =>
              && (outcome == Appended <==> WellPut(g, card, d, reason) && d in g[card])
              && (outcome == NoOp <==> WellPut(g, card, d, reason) && d !in g[card])
              && (outcome == Appended ==> h.Keys == g.Keys && multiset(h[card]) == multiset(g[card]) - multiset{d}
                                          && forall x :: x in g && x != card ==> h[x] == g[x])
              && (outcome != Appended ==> h == g)
  {
    if op.RemoveDependency? && OutcomeOf(g, op) == Appended { RemoveFirstCounts(g[op.card], op.dependency); }
  }

  /** A refusal names the first thing wrong with the request. */
  lemma RefusalIsTold(g: Graph, op: Operation)
    requires !op.Birth? && OutcomeOf(g, op).Refused?
    ensures var why := OutcomeOf(g, op).why;
            && (why == MissingIdentifier <==> op.card == "" || op.dependency == "")
            && (why == SelfDependency <==> op.card == op.dependency && op.card != "")
            && (why == MissingReason ==> forall c :: c in op.reason ==> Space(c))
            && (why == UnknownCard ==> op.card !in g)
            && (why == UnknownDependency ==> op.card in g && op.dependency !in g)
            && (why == CycleRefused ==> op.AddDependency? && Reaches(g, op.dependency, op.card))
            && why != PolicyRefused
  {
  }

  // ----- Explicit births, which a kill can interrupt -----

  /** The folded edges, and the dependencies that pending creation intents have on record. */
  datatype Store = Store(edges: Graph, pending: map<Id, seq<Id>>)

  const EMPTY := Store(map[], map[])

  /**
    `Explicit` is `create_explicit`, killed after `kill` durable writes. `Abandon` is a
    reserved rejection, which clears the intent.
  */
  datatype Action =
    | Plain(op: Operation)
    | Explicit(id: Id, dependencies: seq<Id>, policyRefuses: bool, kill: nat)
    | Abandon(id: Id)

  /** The call finds its own intent and no card: it publishes without asking the governor. */
  predicate Resumes(s: Store, a: Action) {
    a.Explicit? && a.id !in s.edges && a.id in s.pending && s.pending[a.id] == a.dependencies && a.kill > 0
  }

  ghost function Act(s: Store, a: Action): Store {
    match a
    case Plain(op) => s.(edges := Step(s.edges, op))
    case Abandon(id) => s.(pending := s.pending - {id})
    case Explicit(id, ds, policyRefuses, kill) =>
      if Resumes(s, a) then Store(s.edges[id := ds], if kill < 3 then s.pending else s.pending - {id})
      else if id in s.edges || id in s.pending || kill == 0 then s
      else if OutcomeOf(s.edges, Birth(id, ds, policyRefuses)) != Created then s
      else if kill == 1 then s.(pending := s.pending[id := ds])
      else Store(s.edges[id := ds], if kill < 4 then s.pending[id := ds] else s.pending)
  }

  /**
    An explicit creation that runs to its end stores its card exactly when its intent was
    on record or the governor let it through, and leaves no intent of its own; killed
    anywhere it stores its own list or nothing.
  */
  lemma ExplicitStoresExactly(s: Store, id: Id, ds: seq<Id>, policyRefuses: bool, kill: nat)
    ensures var s' := Act(s, Explicit(id, ds, policyRefuses, kill));
            && (s'.edges == s.edges || (id !in s.edges && s'.edges == s.edges[id := ds]))
            && (kill >= 4 ==>
                  (s'.edges != s.edges <==>
                   id !in s.edges
                   && (if id in s.pending then s.pending[id] == ds
                       else !policyRefuses && forall d :: d in ds ==> !Reaches(s.edges, d, id))))
            && (kill >= 4 && s'.edges != s.edges ==> s'.pending == s.pending - {id})
            && (forall x :: x != id ==> (x in s'.pending <==> x in s.pending))
            && (forall x :: x != id && x in s.pending ==> s'.pending[x] == s.pending[x])
            && (id in s'.pending ==> s'.pending[id] == ds || (id in s.pending && s'.pending[id] == s.pending[id]))
  {
    if id !in s.edges { assert id in s.edges[id := ds]; }
  }

  ghost function Run(s: Store, run: seq<Action>): Store
    decreases |run|
  {
    if run == [] then s else Act(Run(s, run[..|run| - 1]), run[|run| - 1])
  }

  /** A resumed birth closes no cycle: nothing on its record reaches it by now. */
  ghost predicate Harmless(s: Store, a: Action) {
    Resumes(s, a) ==> forall d :: d in a.dependencies ==> !Reaches(s.edges, d, a.id)
  }

  /** One action keeps an acyclic store acyclic exactly when it is harmless. */
  lemma ActKeepsAcyclicExactly(s: Store, a: Action)
    requires Acyclic(s.edges)
    ensures Acyclic(Act(s, a).edges) <==> Harmless(s, a)
  {
    if a.Plain? {
      StepKeepsAcyclic(s.edges, a.op);
    } else if a.Explicit? {
      if a.id !in s.edges { BirthAcyclicExactly(s.edges, a.id, a.dependencies); }
    }
  }

  lemma EmptyIsAcyclic()
    ensures Acyclic(EMPTY.edges)
  {
    forall p: seq<Id> | |p| > 1 ensures !IsWalk(EMPTY.edges, p) {
      if IsWalk(EMPTY.edges, p) { WalkTail(EMPTY.edges, p); }
    }
  }

  ghost predicate AcyclicThroughout(run: seq<Action>) {
    forall k :: 0 <= k <= |run| ==> Acyclic(Run(EMPTY, run[..k]).edges)
  }

  ghost predicate HarmlessThroughout(run: seq<Action>) {
    forall k :: 0 <= k < |run| ==> Harmless(Run(EMPTY, run[..k]), run[k])
  }

  lemma RunNext(run: seq<Action>, k: nat)
    requires k < |run|
    ensures Run(EMPTY, run[..k + 1]) == Act(Run(EMPTY, run[..k]), run[k])
  {
    assert run[..k + 1][..k] == run[..k];
  }

  lemma {:induction false} HarmlessUpTo(run: seq<Action>, k: nat)
    requires HarmlessThroughout(run) && k <= |run|
    ensures Acyclic(Run(EMPTY, run[..k]).edges)
  {
    if k == 0 {
      EmptyIsAcyclic();
    } else {
      HarmlessUpTo(run, k - 1);
      RunNext(run, k - 1);
      ActKeepsAcyclicExactly(Run(EMPTY, run[..k - 1]), run[k - 1]);
    }
  }

  /**
    Over any run of births, amendments and explicit creations killed anywhere, the store
    is acyclic at every point exactly when no resumed birth has a dependency on record
    that reaches it by then.
  */
  lemma RunIsAcyclicExactly(run: seq<Action>)
    ensures AcyclicThroughout(run) <==> HarmlessThroughout(run)
  {
    if HarmlessThroughout(run) {
      forall k | 0 <= k <= |run| ensures Acyclic(Run(EMPTY, run[..k]).edges) { HarmlessUpTo(run, k); }
    }
    if AcyclicThroughout(run) {
      forall k | 0 <= k < |run| ensures Harmless(Run(EMPTY, run[..k]), run[k]) {
        RunNext(run, k);
        ActKeepsAcyclicExactly(Run(EMPTY, run[..k]), run[k]);
      }
    }
  }

  /** No explicit creation is killed between its intent and its core. */
  predicate Uninterrupted(run: seq<Action>) {
    forall k :: 0 <= k < |run| && run[k].Explicit? ==> run[k].kill != 1
  }

  lemma {:induction false} IntentsAreCards(run: seq<Action>, k: nat)
    requires Uninterrupted(run) && k <= |run|
    ensures Run(EMPTY, run[..k]).pending.Keys <= Run(EMPTY, run[..k]).edges.Keys
  {
    if k > 0 {
      IntentsAreCards(run, k - 1);
      RunNext(run, k - 1);
      assert run[k - 1].Explicit? ==> run[k - 1].kill != 1;
    }
  }

  /** Without such a kill no run ever closes a cycle. */
  lemma UninterruptedRunsAreAcyclic(run: seq<Action>)
    requires Uninterrupted(run)
    ensures AcyclicThroughout(run)
  {
    forall k | 0 <= k < |run| ensures Harmless(Run(EMPTY, run[..k]), run[k]) {
      IntentsAreCards(run, k);
    }
    RunIsAcyclicExactly(run);
  }

  /** Killed after its intent, overtaken by a card that depends on it, and then resumed. */
  lemma ResumeCanCloseACycle(a: Id, b: Id)
    requires a != b
    ensures var run := [Explicit(a, [b], false, 1), Plain(Birth(b, [a], false)), Explicit(a, [b], false, 4)];
            !Acyclic(Run(EMPTY, run).edges)
  {
    var run := [Explicit(a, [b], false, 1), Plain(Birth(b, [a], false)), Explicit(a, [b], false, 4)];
    var s1, s2 := Store(map[], map[a := [b]]), Store(map[b := [a]], map[a := [b]]);
    assert run[..0] == [] && run[..1] == [run[0]] && run[..2] == [run[0], run[1]] && run[..3] == run;
    NothingReached(map[], a, b);
    NothingReached(map[], b, a);
    RunNext(run, 0);
    assert Run(EMPTY, run[..1]) == s1;
    RunNext(run, 1);
    assert Run(EMPTY, run[..2]) == s2;
    RunNext(run, 2);
    var end := map[b := [a], a := [b]];
    assert Run(EMPTY, run).edges == end;
    var p := [a, b, a];
    assert Succ(end, a) == [b] && Succ(end, b) == [a];
    assert IsWalk(end, p);
  }

  lemma NothingReached(g: Graph, a: Id, b: Id)
    requires g == map[] && a != b
    ensures !Reaches(g, a, b)
  {
    assert Closed(g, {a});
    ClosedHoldsReachable(g, {a}, a);
  }

  /** The folded dependency lists of every readable card. */
  class DependencyStore {
    var edges: Graph
    var pending: map<Id, seq<Id>>

    constructor ()
      ensures View() == EMPTY
    {
      edges, pending := map[], map[];
    }

    ghost function View(): Store
      reads this
    {
      Store(edges, pending)
    }

    /** `create_explicit`: the governor is asked only when no intent is pending. */
    method CreateExplicit(id: Id, dependencies: seq<Id>, policyRefuses: bool, kill: nat)
      modifies this
      ensures View() == Act(old(View()), Explicit(id, dependencies, policyRefuses, kill))
    {
      if id in edges || (id in pending && pending[id] != dependencies) || kill == 0 {
        return;
      }
      var resumed := id in pending;
      if !resumed {
        var refusal := Govern(id, dependencies, policyRefuses);
        if refusal != Created { return; }
        pending := pending[id := dependencies];
        if kill == 1 { return; }
      }
      edges := edges[id := dependencies];
      if (if resumed then kill >= 3 else kill >= 4) { pending := pending - {id}; }
    }

    /** `_govern_create`: every birth edge is checked against the old graph. */
    method Govern(id: Id, dependencies: seq<Id>, policyRefuses: bool) returns (r: Outcome)
      requires id !in edges
      ensures r == OutcomeOf(edges, Birth(id, dependencies, policyRefuses))
    {
      for i := 0 to |dependencies|
        invariant forall k :: 0 <= k < i ==> !Reaches(edges, dependencies[k], id)
      {
        var cycle := WouldCreateCycle(edges, id, dependencies[i]);
        if cycle {
          assert dependencies[i] in dependencies;
          return Refused(CycleRefused);
        }
      }
      assert !exists d :: d in dependencies && Reaches(edges, d, id);
      r := if policyRefuses then Refused(PolicyRefused) else Created;
    }

    method Create(id: Id, dependencies: seq<Id>, policyRefuses: bool) returns (r: Outcome)
      modifies this`edges
      ensures r == OutcomeOf(old(edges), Birth(id, dependencies, policyRefuses))
      ensures edges == Step(old(edges), Birth(id, dependencies, policyRefuses))
      ensures Acyclic(old(edges)) ==> Acyclic(edges)
    {
      ghost var op := Birth(id, dependencies, policyRefuses);
      if Acyclic(edges) { StepKeepsAcyclic(edges, op); }
      if id in edges {
        return AlreadyExists;
      }
      r := Govern(id, dependencies, policyRefuses);
      if r != Created {
        return;
      }
      edges := edges[id := dependencies];
      return Created;
    }

    /** One idempotent `add_dependency` amendment. */
    method AddDependency(card: Id, dependency: Id, reason: string) returns (r: Outcome)
      modifies this`edges
      ensures r == OutcomeOf(old(edges), Operation.AddDependency(card, dependency, reason))
      ensures edges == Step(old(edges), Operation.AddDependency(card, dependency, reason))
      ensures Acyclic(old(edges)) ==> Acyclic(edges)
    {
      ghost var op := Operation.AddDependency(card, dependency, reason);
      if Acyclic(edges) { StepKeepsAcyclic(edges, op); }
      var e := AmendmentError(edges, card, dependency, reason);
      if e != Appended {
        return e;
      }
      if dependency in edges[card] {
        return NoOp;
      }
      var cycle := WouldCreateCycle(edges, card, dependency);
      if cycle {
        return Refused(CycleRefused);
      }
      edges := edges[card := edges[card] + [dependency]];
      return Appended;
    }

    /** One idempotent `remove_dependency` amendment. */
    method RemoveDependency(card: Id, dependency: Id, reason: string) returns (r: Outcome)
      modifies this`edges
      ensures r == OutcomeOf(old(edges), Operation.RemoveDependency(card, dependency, reason))
      ensures edges == Step(old(edges), Operation.RemoveDependency(card, dependency, reason))
      ensures Acyclic(old(edges)) ==> Acyclic(edges)
    {
      ghost var op := Operation.RemoveDependency(card, dependency, reason);
      if Acyclic(edges) { StepKeepsAcyclic(edges, op); }
      var e := AmendmentError(edges, card, dependency, reason);
      if e != Appended {
        return e;
      }
      if dependency !in edges[card] {
        return NoOp;
      }
      edges := edges[card := RemoveFirst(edges[card], dependency)];
      return Appended;
    }
  }
}
