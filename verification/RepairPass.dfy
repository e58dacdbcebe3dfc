/**
  The two loops of `lifecycle._repair_lifecycle_unlocked` over agent files that are
  rewritten in place, with the projections each pass stages for saving.
*/
module RepairPass {
  import opened Ordering
  import opened Sequences
  import opened Wrappers
  import opened CardFold
  import opened LifecycleAudit
  import opened LifecycleRepair

  class AgentFile {
    const name: Id
    const active: bool
    var current: Option<Id>
    var claimed: seq<Id>
    var completed: seq<Id>

    function View(): Projection
      reads this
    {
      Projection(name, active, current, claimed, completed)
    }

    constructor (p: Projection)
      ensures View() == p
    {
      name, active, current, claimed, completed := p.name, p.active, p.current, p.claimed, p.completed;
    }

    /** The claims that survive. */
    method Retained(board: Board, scope: Scope) returns (retained: seq<Id>)
      ensures retained == Filter(claimed, Keeps(View(), board, scope))
    {
      retained := [];
      for k := 0 to |claimed|
        invariant retained == Filter(claimed[..k], Keeps(View(), board, scope))
      {
        var t := claimed[k];
        assert claimed[..k + 1] == claimed[..k] + [t];
        FilterSnoc(claimed[..k], t, Keeps(View(), board, scope));
        var card := Find(board, t);
        if !InScope(scope, t) {
          retained := retained + [t];
        } else if card.None? {
          if active { retained := retained + [t]; }
        } else if card.value.status == Backlog || card.value.status == Done {
        } else if OwnedByAnother(card.value, name) {
        } else {
          retained := retained + [t];
        }
      }
      assert claimed[..|claimed|] == claimed;
    }

    method SettleCurrent(board: Board, scope: Scope, doing: seq<Id>)
      requires doing == DoingOf(board, name)
      modifies this`current
      ensures current == SettledCurrent(old(View()), claimed, board, scope)
    {
      var inScope := CurrentInScope(current, scope);
      if inScope && (current.None? || current.value !in claimed) {
        current := None;
      } else if inScope && Find(board, current.value).Some? && Find(board, current.value).value.status != Doing {
        current := None;
      }
      if inScope && current.None? {
        var kept := claimed;
        var owned := Filter(doing, (t: Id) => t in kept || InScope(scope, t));
        if owned != [] { current := Some(owned[0]); }
      }
    }

    /** The body of the first loop. */
    method Reconcile(board: Board, scope: Scope, doing: seq<Id>)
      requires doing == DoingOf(board, name)
      modifies this
      ensures View() == Settle(old(View()), board, scope)
    {
      var retained := Retained(board, scope);
      claimed := Dedupe(retained);
      SettleCurrent(board, scope, doing);
      var reopened := Filter(completed, (t: Id) => !StaysCompleted(board, scope)(t));
      ReopenedAre(completed, board, scope);
      if reopened != [] {
        completed := Filter(completed, (t: Id) => t !in reopened);
      }
    }

    /** The body of the second loop, for a card this agent owns. */
    method TakeCredit(card: BoardCard, board: Board, scope: Scope, doing: seq<Id>)
      requires doing == DoingOf(board, name)
      requires DistinctIds(board) && card in board && Counts(card, name, scope)
      modifies this
      ensures View() == Credit(old(View()), card, board, scope)
    {
      if card.status == Done {
        if card.id !in completed { completed := completed + [card.id]; }
      } else if Active(card.status) {
        if card.id !in claimed { claimed := claimed + [card.id]; }
        RemoveFirstDrops(completed, card.id);
        if card.id in completed { completed := RemoveFirst(completed, card.id); }
        if card.status == Doing {
          if current.None? || current.value !in doing {
            CreditedCurrentIs(View(), card, board, scope);
            current := Some(Filter(doing, (t: Id) => InScope(scope, t))[0]);
          }
        } else if current == Some(card.id) {
          current := None;
        }
      }
    }
  }

  /** Dropping the reopened ids keeps those that stay, and drops nothing when there are none. */
  lemma ReopenedAre(completed: seq<Id>, board: Board, scope: Scope)
    ensures var reopened := Filter(completed, (t: Id) => !StaysCompleted(board, scope)(t));
            && Filter(completed, (t: Id) => t !in reopened) == Filter(completed, StaysCompleted(board, scope))
            && (reopened == [] ==> Filter(completed, StaysCompleted(board, scope)) == completed)
  {
    var goes := (t: Id) => !StaysCompleted(board, scope)(t);
    var reopened := Filter(completed, goes);
    forall t | t in completed ensures t in reopened <==> !StaysCompleted(board, scope)(t) {
      FilterMember(completed, goes, t);
    }
    FilterAgree(completed, (t: Id) => t !in reopened, StaysCompleted(board, scope));
    if reopened == [] { FilterAll(completed, StaysCompleted(board, scope)); }
  }

  function Views(agents: map<Id, AgentFile>): Agents
    reads agents.Values
  {
    map n | n in agents :: agents[n].View()
  }

  /** A dictionary of agent files, each under its own name. */
  ghost predicate Indexed(agents: map<Id, AgentFile>) {
    forall n :: n in agents ==> agents[n].name == n
  }

  /** `pending` holds the new projection of every agent that a pass changed. */
  ghost predicate Stages(was: Agents, now: Agents, pending: Agents) {
    && pending.Keys <= now.Keys
    && (forall n :: n in pending ==> pending[n] == now[n])
    && (forall n :: n in now && n !in pending ==> n in was && was[n] == now[n])
  }

  datatype Error = NotAFilename(owner: Id)

  /** The agents once those in `settled` have been through the first loop. */
  function Partly(was: Agents, settled: seq<Id>, board: Board, scope: Scope): Agents {
    map n | n in was :: if n in settled then Settle(was[n], board, scope) else was[n]
  }

  lemma PartlyNext(was: Agents, settled: seq<Id>, name: Id, board: Board, scope: Scope)
    requires name in was && name !in settled
    ensures Partly(was, settled, board, scope)[name] == was[name]
    ensures Partly(was, settled + [name], board, scope)
            == Partly(was, settled, board, scope)[name := Settle(was[name], board, scope)]
  {
  }

  /** `if agent.model_dump() != original: stage(agent)`. */
  function Stage(pending: Agents, original: Projection, p: Projection): Agents {
    if p == original then pending else pending[p.name := p]
  }

  lemma StageKeeps(was: Agents, now: Agents, pending: Agents, p: Projection)
    requires Stages(was, now, pending) && (p == Get(now, p.name) ==> p.name in now)
    ensures Stages(was, now[p.name := p], Stage(pending, Get(now, p.name), p))
  {
  }

  /** One turn of the first loop. */
  method SettleOne(name: Id, agents: map<Id, AgentFile>, pending: Agents, board: Board, scope: Scope)
    returns (staged: Agents)
    requires Indexed(agents) && name in agents
    modifies agents[name]
    ensures Views(agents) == old(Views(agents))[name := Settle(old(agents[name].View()), board, scope)]
    ensures staged == Stage(pending, old(agents[name].View()), agents[name].View())
  {
    var agent := agents[name];
    var original := agent.View();
    agent.Reconcile(board, scope, DoingOf(board, name));
    staged := Stage(pending, original, agent.View());
  }

  /** Where the first loop stands once it has settled `settled`. */
  ghost predicate Midway(was: Agents, now: Agents, settled: seq<Id>, pending: Agents, board: Board, scope: Scope) {
    && now == Partly(was, settled, board, scope) && Stages(was, now, pending)
    && (was == SettleAll(was, board, scope) ==> pending == map[])
  }

  lemma MidwayNext(was: Agents, now: Agents, settled: seq<Id>, name: Id, pending: Agents, board: Board, scope: Scope)
    requires Named(was) && name in was && name !in settled
    requires Midway(was, now, settled, pending, board, scope)
    ensures var p := Settle(now[name], board, scope);
            Midway(was, now[name := p], settled + [name], Stage(pending, now[name], p), board, scope)
  {
    PartlyNext(was, settled, name, board, scope);
    StageKeeps(was, now, pending, Settle(was[name], board, scope));
    if was == SettleAll(was, board, scope) { assert was[name] == SettleAll(was, board, scope)[name]; }
  }

  lemma NextName(names: seq<Id>, k: nat)
    requires Distinct(names) && k < |names|
    ensures names[k] !in names[..k] && names[..k + 1] == names[..k] + [names[k]]
  {
  }

  lemma MidwayEnds(was: Agents, now: Agents, names: seq<Id>, pending: Agents, board: Board, scope: Scope)
    requires Midway(was, now, names, pending, board, scope) && forall n :: n in was ==> n in names
    ensures now == SettleAll(was, board, scope)
  {
  }

  /** The first loop. */
  method SettleAgents(names: seq<Id>, agents: map<Id, AgentFile>, board: Board, scope: Scope)
    returns (pending: Agents)
    requires Indexed(agents) && Distinct(names) && forall n :: n in names <==> n in agents
    modifies agents.Values
    ensures Midway(old(Views(agents)), Views(agents), names, pending, board, scope)
    ensures Views(agents) == SettleAll(old(Views(agents)), board, scope)
  {
    ghost var was := Views(agents);
    pending := map[];
    var k := 0;
    while k < |names|
      invariant 0 <= k <= |names|
      invariant Midway(was, Views(agents), names[..k], pending, board, scope)
    {
      assert names[k] in names;
      NextName(names, k);
      MidwayNext(was, Views(agents), names[..k], names[k], pending, board, scope);
      pending := SettleOne(names[k], agents, pending, board, scope);
      k := k + 1;
    }
    assert names[..k] == names;
    MidwayEnds(was, Views(agents), names, pending, board, scope);
  }

  /** The owner of `card`, were it credited, is in no file and could not be given one. */
  predicate Nameless(card: BoardCard, scope: Scope, known: set<Id>) {
    InScope(scope, card.id) && Truthy(card.owner)
    && card.owner.value !in known && !Canonical(card.owner.value)
  }

  lemma CreditStages(was: Agents, now: Agents, pending: Agents, card: BoardCard, board: Board, scope: Scope)
    requires Named(now) && Stages(was, now, pending) && InScope(scope, card.id) && Truthy(card.owner)
    ensures var p := Get(now, card.owner.value);
            Stages(was, CreditOne(now, card, board, scope), Stage(pending, p, Credit(p, card, board, scope)))
  {
    var p := Get(now, card.owner.value);
    var q := Credit(p, card, board, scope);
    if q != p { StageKeeps(was, now, pending, q); }
  }

  /** The files `now` are those of `was`, and new ones. */
  twostate predicate Extends(was: map<Id, AgentFile>, new now: map<Id, AgentFile>) {
    && Indexed(now) && was.Keys <= now.Keys
    && (forall n :: n in now ==> if n in was then now[n] == was[n] else fresh(now[n]))
  }

  /** `agents.get(owner) or AgentFile(agent=owner, state=OFFLINE)`. */
  method OwnerFile(name: Id, agents: map<Id, AgentFile>) returns (owner: AgentFile)
    requires Indexed(agents)
    ensures owner.View() == Get(Views(agents), name)
    ensures if name in agents then owner == agents[name] else fresh(owner)
  {
    if name in agents { owner := agents[name]; } else { owner := new AgentFile(Fresh(name)); }
  }

  /** One turn of the second loop, once the owner's file is at hand. */
  method CreditOwner(card: BoardCard, owner: AgentFile, agents: map<Id, AgentFile>, pending: Agents, board: Board,
                     scope: Scope)
    returns (now: map<Id, AgentFile>, staged: Agents)
    requires Indexed(agents) && DistinctIds(board) && card in board && Counts(card, owner.name, scope)
    requires owner.View() == Get(Views(agents), owner.name)
    requires if owner.name in agents then owner == agents[owner.name] else owner !in agents.Values
    modifies owner
    ensures now == agents || now == agents[owner.name := owner]
    ensures Views(now) == CreditOne(old(Views(agents)), card, board, scope)
    ensures staged == Stage(pending, old(owner.View()), Credit(old(owner.View()), card, board, scope))
  {
    var original := owner.View();
    owner.TakeCredit(card, board, scope, DoingOf(board, owner.name));
    staged := Stage(pending, original, owner.View());
    now := agents;
    if owner.View() != original { now := agents[owner.name := owner]; }
  }

  /** One turn of the second loop. `was` is what the agents were before the first. */
  method CreditTurn(ghost was: Agents, card: BoardCard, agents: map<Id, AgentFile>, pending: Agents, board: Board,
                    scope: Scope)
    returns (now: map<Id, AgentFile>, staged: Agents)
    requires Indexed(agents) && DistinctIds(board) && card in board && Stages(was, Views(agents), pending)
    requires !Nameless(card, scope, agents.Keys)
    modifies agents.Values
    ensures Extends(agents, now)
    ensures Views(now) == CreditOne(old(Views(agents)), card, board, scope)
    ensures Stages(was, Views(now), staged)
    ensures Views(now) == old(Views(agents)) ==> staged == pending
  {
    now, staged := agents, pending;
    if InScope(scope, card.id) && Truthy(card.owner) {
      CreditStages(was, Views(agents), pending, card, board, scope);
      var owner := OwnerFile(card.owner.value, agents);
      now, staged := CreditOwner(card, owner, agents, pending, board, scope);
    }
  }

  /** The first `k` cards change no agent. */
  ghost predicate CreditsNothing(m: Agents, k: nat, board: Board, scope: Scope) {
    forall j :: 0 <= j <= k && j <= |board| ==> CreditAll(m, board[..j], board, scope) == m
  }

  predicate NoneNameless(cards: Board, scope: Scope, known: set<Id>) {
    forall c :: c in cards ==> !Nameless(c, scope, known)
  }

  /** Where the second loop stands after `k` cards, having begun with `start` and `pending`. */
  ghost predicate Along(was: Agents, start: Agents, pending: Agents, now: Agents, staged: Agents, k: nat,
                        board: Board, scope: Scope)
    requires k <= |board|
  {
    && now == CreditAll(start, board[..k], board, scope) && Stages(was, now, staged)
    && (CreditsNothing(start, k, board, scope) ==> staged == pending)
  }

  lemma AlongNext(was: Agents, start: Agents, pending: Agents, now: Agents, staged: Agents, k: nat, board: Board,
                  scope: Scope, after: Agents, restaged: Agents)
    requires k < |board| && Along(was, start, pending, now, staged, k, board, scope)
    requires after == CreditOne(now, board[k], board, scope) && Stages(was, after, restaged)
    requires after == now ==> restaged == staged
    ensures Along(was, start, pending, after, restaged, k + 1, board, scope)
  {
    NextCard(board, k);
    assert after == CreditAll(start, board[..k + 1], board, scope);
    if CreditsNothing(start, k + 1, board, scope) {
      assert CreditAll(start, board[..k], board, scope) == start;
    }
  }

  method CreditNext(ghost was: Agents, ghost start: Agents, ghost pending: Agents, agents: map<Id, AgentFile>,
                    staged: Agents, k: nat, board: Board, scope: Scope)
    returns (now: map<Id, AgentFile>, restaged: Agents)
    requires Indexed(agents) && DistinctIds(board) && k < |board| && !Nameless(board[k], scope, agents.Keys)
    requires Along(was, start, pending, Views(agents), staged, k, board, scope)
    modifies agents.Values
    ensures Extends(agents, now)
    ensures Along(was, start, pending, Views(now), restaged, k + 1, board, scope)
  {
    ghost var before := Views(agents);
    NextCard(board, k);
    now, restaged := CreditTurn(was, board[k], agents, staged, board, scope);
    AlongNext(was, start, pending, before, staged, k, board, scope, Views(now), restaged);
  }

  /**
    An owner that can be given no file stops the pass, and then nothing of it is kept;
    so such an owner is looked for first.
  */
  method FirstNameless(board: Board, scope: Scope, known: set<Id>) returns (found: Option<Id>)
    ensures found.None? <==> NoneNameless(board, scope, known)
  {
    for k := 0 to |board|
      invariant NoneNameless(board[..k], scope, known)
    {
      if Nameless(board[k], scope, known) {
        assert board[k] in board;
        return Some(board[k].owner.value);
      }
      assert board[..k + 1] == board[..k] + [board[k]];
    }
    assert board[..|board|] == board;
    found := None;
  }

  /** The second loop. */
  method CreditAgents(ghost was: Agents, agents: map<Id, AgentFile>, pending: Agents, board: Board, scope: Scope)
    returns (all: map<Id, AgentFile>, staged: Agents)
    requires Indexed(agents) && DistinctIds(board) && Stages(was, Views(agents), pending)
    requires NoneNameless(board, scope, agents.Keys)
    modifies agents.Values
    ensures Extends(agents, all)
    ensures Along(was, old(Views(agents)), pending, Views(all), staged, |board|, board, scope)
  {
    ghost var start := Views(agents);
    all, staged := agents, pending;
    for k := 0 to |board|
      invariant Extends(agents, all)
      invariant Along(was, start, pending, Views(all), staged, k, board, scope)
    {
      assert !Nameless(board[k], scope, agents.Keys);
      all, staged := CreditNext(was, start, pending, all, staged, k, board, scope);
    }
  }

  lemma NextCard(board: Board, k: nat)
    requires k < |board|
    ensures board[k] in board && board[..k + 1] == board[..k] + [board[k]] && board[..k + 1][..k] == board[..k]
  {
  }

  /** Both loops. The agents become what `Repaired` says, and `pending` is all that changed. */
  method RunLoops(names: seq<Id>, agents: map<Id, AgentFile>, board: Board, scope: Scope)
    returns (result: Result<map<Id, AgentFile>, Error>, pending: Agents)
    requires Indexed(agents) && DistinctIds(board) && Distinct(names) && forall n :: n in names <==> n in agents
    modifies agents.Values
    ensures result.Failure? <==> !NoneNameless(board, scope, agents.Keys)
    ensures result.Success? ==> Extends(agents, result.value)
    ensures result.Success? ==> Views(result.value) == Repaired(old(Views(agents)), board, scope)
    ensures result.Success? ==> Stages(old(Views(agents)), Views(result.value), pending)
    ensures result.Success? && StagesNothing(old(Views(agents)), board, scope) ==> pending == map[]
  {
    ghost var was := Views(agents);
    var nameless := FirstNameless(board, scope, agents.Keys);
    if nameless.Some? { return Failure(NotAFilename(nameless.value)), map[]; }
    var settled := SettleAgents(names, agents, board, scope);
    ghost var start := Views(agents);
    var all, staged := CreditAgents(was, agents, settled, board, scope);
    LoopsEnd(was, start, names, settled, Views(all), staged, board, scope);
    result, pending := Success(all), staged;
  }

  /** Where both loops end. */
  lemma LoopsEnd(was: Agents, start: Agents, names: seq<Id>, settled: Agents, now: Agents, pending: Agents,
                 board: Board, scope: Scope)
    requires Midway(was, start, names, settled, board, scope) && start == SettleAll(was, board, scope)
    requires Along(was, start, settled, now, pending, |board|, board, scope)
    ensures now == Repaired(was, board, scope) && Stages(was, now, pending)
    ensures StagesNothing(was, board, scope) ==> pending == map[]
  {
    assert board[..|board|] == board;
    if StagesNothing(was, board, scope) { assert CreditsNothing(start, |board|, board, scope); }
  }
}
