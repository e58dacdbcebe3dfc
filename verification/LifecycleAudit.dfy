/**
  Comparing the card store with every agent's live projection (`lifecycle.py`): the
  audit's rules, and the conflicts that stop a repair.
*/
module LifecycleAudit {
  import opened Ordering
  import opened Wrappers
  import opened CardFold

  type Id = string

  /** What the audit reads of one folded card. */
  datatype BoardCard = BoardCard(id: Id, status: Column, owner: Option<Id>)
  type Board = seq<BoardCard>

  /** `task_ids`: the whole board, or the tasks named. */
  type Scope = Option<set<Id>>

  /** One agent file. `active` is `_is_active` at the time of the repair. */
  datatype Projection = Projection(
    name: Id, active: bool, current: Option<Id>, claimed: seq<Id>, completed: seq<Id>)

  type Agents = map<Id, Projection>

  predicate InScope(scope: Scope, t: Id) {
    scope.None? || t in scope.value
  }

  ghost predicate DistinctIds(board: Board) {
    forall i, j :: 0 <= i < j < |board| ==> board[i].id != board[j].id
  }

  ghost predicate Named(m: Agents) {
    forall n :: n in m ==> m[n].name == n
  }

  predicate OwnedBy(card: BoardCard, name: Id) {
    Truthy(card.owner) && card.owner.value == name
  }

  predicate OwnedByAnother(card: BoardCard, name: Id) {
    Truthy(card.owner) && card.owner.value != name
  }

  /** `AgentFile(agent=name, state=OFFLINE)`. */
  function Fresh(name: Id): Projection {
    Projection(name, false, None, [], [])
  }

  function Get(m: Agents, name: Id): Projection {
    if name in m then m[name] else Fresh(name)
  }

  /** `cards.get(id)`. */
  function Find(board: Board, id: Id): (r: Option<BoardCard>)
    ensures r.Some? ==> r.value in board && r.value.id == id
    ensures r.None? ==> forall c :: c in board ==> c.id != id
  {
    if board == [] then None
    else if board[0].id == id then Some(board[0])
    else
      var r := Find(board[1..], id);
      assert board == [board[0]] + board[1..];
      r
  }

  lemma {:induction false} FindIs(board: Board, card: BoardCard)
    requires DistinctIds(board) && card in board
    ensures Find(board, card.id) == Some(card)
  {
    var found := Find(board, card.id).value;
    var i :| 0 <= i < |board| && board[i] == card;
    var j :| 0 <= j < |board| && board[j] == found;
    assert i == j;
  }

  // ----- The doing cards of one owner -----

  const ID: BoardCard -> Id := (c: BoardCard) => c.id
  const ID_KEY: Id -> Key := (t: Id) => Key(t, "", 0)

  function IsDoing(name: Id): BoardCard -> bool {
    (c: BoardCard) => OwnedBy(c, name) && c.status == Doing
  }

  function DoingIds(board: Board, name: Id): seq<Id> {
    MapAll(Filter(board, IsDoing(name)), ID)
  }

  /** The ids of the doing cards that `name` owns, in id order. */
  function DoingOf(board: Board, name: Id): seq<Id> {
    StableSort(DoingIds(board, name), ID_KEY)
  }

  lemma DoingOfHolds(board: Board, name: Id, t: Id)
    ensures t in DoingOf(board, name)
            <==> exists c :: c in board && OwnedBy(c, name) && c.status == Doing && c.id == t
  {
    var doing := Filter(board, IsDoing(name));
    var ids := MapAll(doing, ID);
    SortSorts(ids, ID_KEY);
    assert t in DoingOf(board, name) <==> t in multiset(ids);
    if t in ids {
      var k :| 0 <= k < |ids| && ids[k] == t;
      FilterMember(board, IsDoing(name), doing[k]);
    }
    forall c | c in board && OwnedBy(c, name) && c.status == Doing && c.id == t ensures t in ids {
      FilterMember(board, IsDoing(name), c);
      var k :| 0 <= k < |doing| && doing[k] == c;
      assert ids[k] == t;
    }
  }

  // ----- Names under which an agent file is read back -----

  predicate Digit(c: char) { '0' <= c <= '9' }

  predicate AlphaNum(c: char) {
    Digit(c) || 'A' <= c <= 'Z' || 'a' <= c <= 'z'
  }

  predicate AllOf(s: string, p: char -> bool) {
    forall i :: 0 <= i < |s| ==> p(s[i])
  }

  /** A canonical filename stem, as `AgentFile` demands. */
  predicate Canonical(name: Id) {
    && 1 <= |name| <= 128 && AlphaNum(name[0]) && AlphaNum(name[|name| - 1])
    && AllOf(name, (c: char) => AlphaNum(c) || c in "_.-")
  }

  const CONFLICT_MARK := ".sync-conflict-"

  /** The text from `i` up to the dot or end at `j` is a Syncthing conflict mark. */
  predicate ConflictMarkAt(name: Id, i: nat, j: nat) {
    && i + 31 < j <= |name| && (j == |name| || name[j] == '.')
    && name[i..i + 15] == CONFLICT_MARK && AllOf(name[i + 15..i + 23], Digit) && name[i + 23] == '-'
    && AllOf(name[i + 24..i + 30], Digit) && name[i + 30] == '-' && AllOf(name[i + 31..j], AlphaNum)
  }

  predicate ConflictCopy(name: Id) {
    exists i, j :: 0 <= i < j <= |name| && ConflictMarkAt(name, i, j)
  }

  /** `load_agents` reads the file of `name` back. */
  predicate Loadable(name: Id) {
    Canonical(name) && !ConflictCopy(name)
  }

  /** What `load_agents` makes of the files. */
  function Loaded(files: Agents): Agents {
    map n | n in files && Loadable(n) :: files[n]
  }

  // ----- The audit's rules -----

  datatype Issue =
    | CurrentNotClaimed(task: Id, agent: Id)
    | OrphanClaim(task: Id, agent: Id)
    | DoneStillClaimed(task: Id, agent: Id)
    | BacklogStillClaimed(task: Id, agent: Id)
    | ClaimantNotOwner(task: Id, agent: Id)
    | ReviewReportedActive(task: Id, agent: Id)
    | DoneReportedActive(task: Id, agent: Id)
    | ReopenedStillCompleted(task: Id, agent: Id)
    | MultipleClaimants(task: Id)
    | OwnerClaimMissing(task: Id, agent: Id)
    | DoingOwnerNotCurrent(task: Id, agent: Id)

  /** `agent.current_task` is `t` and is not empty. */
  predicate Reports(p: Projection, t: Id) {
    Truthy(p.current) && p.current.value == t
  }

  predicate HasStatus(board: Board, t: Id, status: Column) {
    Find(board, t).Some? && Find(board, t).value.status == status
  }

  predicate NotOwner(board: Board, t: Id, name: Id) {
    Find(board, t).Some? && Active(Find(board, t).value.status) && OwnedByAnother(Find(board, t).value, name)
  }

  /** The rules that read one agent. */
  predicate AgentFlag(p: Projection, board: Board, scope: Scope, i: Issue) {
    && InScope(scope, i.task)
    && match i
       case CurrentNotClaimed(t, a) => a == p.name && Reports(p, t) && t !in p.claimed
       case OrphanClaim(t, a) => a == p.name && t in p.claimed && Find(board, t).None?
       case DoneStillClaimed(t, a) => a == p.name && t in p.claimed && HasStatus(board, t, Done)
       case BacklogStillClaimed(t, a) => a == p.name && t in p.claimed && HasStatus(board, t, Backlog)
       case ClaimantNotOwner(t, a) => a == p.name && t in p.claimed && NotOwner(board, t, a)
       case ReviewReportedActive(t, a) => a == p.name && Reports(p, t) && HasStatus(board, t, Review)
       case DoneReportedActive(t, a) => a == p.name && Reports(p, t) && HasStatus(board, t, Done)
       case ReopenedStillCompleted(t, a) =>
         a == p.name && t in p.completed && Find(board, t).Some? && !HasStatus(board, t, Done)
       case _ => false
  }

  ghost predicate ClaimedByTwo(m: Agents, t: Id) {
    exists a, b :: a in m && b in m && a != b && t in m[a].claimed && t in m[b].claimed
  }

  predicate LacksClaim(m: Agents, name: Id, t: Id) {
    name !in m || t !in m[name].claimed
  }

  function InScopeOf(scope: Scope): Id -> bool {
    (t: Id) => InScope(scope, t)
  }

  /** `t` is the first in-scope doing card of an owner that reports none of its doing cards. */
  predicate NotCurrent(m: Agents, board: Board, scope: Scope, t: Id, name: Id) {
    var doing := DoingOf(board, name);
    var scoped := Filter(doing, InScopeOf(scope));
    && scoped != [] && t == scoped[0]
    && (name !in m || m[name].current.None? || m[name].current.value !in doing)
  }

  /** The rules that read several agents or start from a card. */
  ghost predicate BoardFlag(m: Agents, board: Board, scope: Scope, i: Issue) {
    match i
    case MultipleClaimants(t) => InScope(scope, t) && ClaimedByTwo(m, t)
    case OwnerClaimMissing(t, a) =>
      && InScope(scope, t) && Find(board, t).Some? && OwnedBy(Find(board, t).value, a)
      && Active(Find(board, t).value.status) && LacksClaim(m, a, t)
    case DoingOwnerNotCurrent(t, a) => NotCurrent(m, board, scope, t, a)
    case _ => false
  }

  ghost predicate Flagged(m: Agents, board: Board, scope: Scope, i: Issue) {
    (exists n :: n in m && AgentFlag(m[n], board, scope, i)) || BoardFlag(m, board, scope, i)
  }

  ghost predicate Clean(m: Agents, board: Board, scope: Scope) {
    forall i :: !Flagged(m, board, scope, i)
  }

  /** An active agent claims an in-scope task whose card is missing. */
  ghost predicate ActiveOrphan(m: Agents, board: Board, scope: Scope) {
    exists n, t :: n in m && t in m[n].claimed && m[n].active && InScope(scope, t) && Find(board, t).None?
  }

  ghost predicate ActiveNonOwner(m: Agents, board: Board, scope: Scope) {
    exists n, t :: n in m && t in m[n].claimed && m[n].active && InScope(scope, t) && NotOwner(board, t, n)
  }

  ghost predicate ActivePair(m: Agents, scope: Scope) {
    exists a, b, t :: a in m && b in m && a != b && InScope(scope, t)
                      && t in m[a].claimed && m[a].active && t in m[b].claimed && m[b].active
  }

  /** Genuinely active work that a repair would overwrite. */
  ghost predicate ActiveConflict(m: Agents, board: Board, scope: Scope) {
    ActiveOrphan(m, board, scope) || ActiveNonOwner(m, board, scope) || ActivePair(m, scope)
  }

  // ----- The audit -----

  /** The one rule a claim breaks, in the order the audit tries them. */
  function ClaimIssue(p: Projection, board: Board, t: Id): Option<Issue> {
    var card := Find(board, t);
    if card.None? then Some(OrphanClaim(t, p.name))
    else if card.value.status == Done then Some(DoneStillClaimed(t, p.name))
    else if card.value.status == Backlog then Some(BacklogStillClaimed(t, p.name))
    else if OwnedByAnother(card.value, p.name) then Some(ClaimantNotOwner(t, p.name))
    else None
  }

  predicate ClaimRule(i: Issue) {
    i.OrphanClaim? || i.DoneStillClaimed? || i.BacklogStillClaimed? || i.ClaimantNotOwner?
  }

  lemma ClaimIssueIs(p: Projection, board: Board, scope: Scope, i: Issue)
    ensures ClaimRule(i) && AgentFlag(p, board, scope, i)
            <==> InScope(scope, i.task) && i.task in p.claimed && ClaimIssue(p, board, i.task) == Some(i)
  {
  }

  method AuditClaims(p: Projection, board: Board, scope: Scope) returns (issues: seq<Issue>)
    ensures forall i :: i in issues <==> ClaimRule(i) && AgentFlag(p, board, scope, i)
  {
    issues := [];
    for k := 0 to |p.claimed|
      invariant forall i :: i in issues <==>
                  i.task in p.claimed[..k] && InScope(scope, i.task) && ClaimIssue(p, board, i.task) == Some(i)
    {
      var t := p.claimed[k];
      assert p.claimed[..k + 1] == p.claimed[..k] + [t];
      if InScope(scope, t) {
        var issue := ClaimIssue(p, board, t);
        if issue.Some? { issues := issues + [issue.value]; }
      }
    }
    assert p.claimed[..|p.claimed|] == p.claimed;
    forall i ensures i in issues <==> ClaimRule(i) && AgentFlag(p, board, scope, i) {
      ClaimIssueIs(p, board, scope, i);
    }
  }

  method AuditCompletions(p: Projection, board: Board, scope: Scope) returns (issues: seq<Issue>)
    ensures forall i :: i in issues <==> i.ReopenedStillCompleted? && AgentFlag(p, board, scope, i)
  {
    issues := [];
    for k := 0 to |p.completed|
      invariant forall i :: i in issues <==>
                  i.ReopenedStillCompleted? && i.task in p.completed[..k] && AgentFlag(p, board, scope, i)
    {
      var t := p.completed[k];
      assert p.completed[..k + 1] == p.completed[..k] + [t];
      if InScope(scope, t) {
        var card := Find(board, t);
        if card.Some? && card.value.status != Done {
          issues := issues + [ReopenedStillCompleted(t, p.name)];
        }
      }
    }
    assert p.completed[..|p.completed|] == p.completed;
  }

  /** One agent against the board. */
  method AuditAgent(p: Projection, board: Board, scope: Scope) returns (issues: seq<Issue>)
    ensures forall i :: i in issues <==> AgentFlag(p, board, scope, i)
  {
    var current: seq<Issue> := [];
    if Truthy(p.current) && InScope(scope, p.current.value) {
      var t := p.current.value;
      if t !in p.claimed { current := current + [CurrentNotClaimed(t, p.name)]; }
      var card := Find(board, t);
      if card.Some? && card.value.status == Review {
        current := current + [ReviewReportedActive(t, p.name)];
      } else if card.Some? && card.value.status == Done {
        current := current + [DoneReportedActive(t, p.name)];
      }
    }
    var claims := AuditClaims(p, board, scope);
    var completions := AuditCompletions(p, board, scope);
    issues := current + claims + completions;
  }

  /** `doing.get(a, [])`. */
  function Listed(doing: map<Id, seq<Id>>, a: Id): seq<Id> {
    if a in doing then doing[a] else []
  }

  /** `setdefault(owner, []).append(card.id)`, for a doing card that has an owner. */
  function AddDoing(doing: map<Id, seq<Id>>, card: BoardCard): map<Id, seq<Id>> {
    if Truthy(card.owner) && card.status == Doing then
      doing[card.owner.value := Listed(doing, card.owner.value) + [card.id]]
    else doing
  }

  ghost predicate ListsDoing(doing: map<Id, seq<Id>>, cards: Board) {
    && (forall a :: Listed(doing, a) == DoingIds(cards, a))
    && (forall a :: a in doing ==> doing[a] != [])
  }

  lemma DoingSnoc(cards: Board, card: BoardCard, a: Id)
    ensures DoingIds(cards + [card], a) == DoingIds(cards, a) + if IsDoing(a)(card) then [card.id] else []
  {
    FilterSnoc(cards, card, IsDoing(a));
  }

  lemma AddDoingKeeps(doing: map<Id, seq<Id>>, cards: Board, card: BoardCard)
    requires ListsDoing(doing, cards)
    ensures ListsDoing(AddDoing(doing, card), cards + [card])
  {
    forall a ensures Listed(AddDoing(doing, card), a) == DoingIds(cards + [card], a) {
      DoingSnoc(cards, card, a);
    }
  }

  /** `doing_by_owner`: every owner's doing cards in board order. */
  method DoingByOwner(board: Board) returns (doing: map<Id, seq<Id>>)
    ensures forall a :: a in doing <==> DoingIds(board, a) != []
    ensures forall a :: a in doing ==> doing[a] == DoingIds(board, a)
  {
    doing := map[];
    for k := 0 to |board|
      invariant ListsDoing(doing, board[..k])
    {
      AddDoingKeeps(doing, board[..k], board[k]);
      assert board[..k + 1] == board[..k] + [board[k]];
      doing := AddDoing(doing, board[k]);
    }
    assert board[..|board|] == board;
    assert forall a :: Listed(doing, a) == DoingIds(board, a);
  }

  predicate Holds(holders: map<Id, set<Id>>, t: Id, a: Id) {
    t in holders && a in holders[t]
  }

  predicate ClaimsInScope(p: Projection, scope: Scope, t: Id) {
    InScope(scope, t) && t in p.claimed
  }

  /** `holders`: who claims each in-scope task. */
  method Holders(names: seq<Id>, m: Agents, scope: Scope) returns (holders: map<Id, set<Id>>)
    requires forall n :: n in names <==> n in m
    ensures forall t, a :: Holds(holders, t, a) <==> a in m && ClaimsInScope(m[a], scope, t)
  {
    holders := map[];
    for k := 0 to |names|
      invariant forall t, a :: Holds(holders, t, a) <==> a in names[..k] && a in m && ClaimsInScope(m[a], scope, t)
    {
      assert names[k] in names;
      holders := AddHolder(holders, m[names[k]], names[k], scope);
      assert names[..k + 1] == names[..k] + [names[k]];
    }
    assert names[..|names|] == names;
  }

  method AddHolder(was: map<Id, set<Id>>, p: Projection, name: Id, scope: Scope) returns (holders: map<Id, set<Id>>)
    ensures forall t, a :: Holds(holders, t, a) <==> Holds(was, t, a) || (a == name && ClaimsInScope(p, scope, t))
  {
    holders := was;
    for l := 0 to |p.claimed|
      invariant forall t, a :: Holds(holders, t, a) <==>
                  Holds(was, t, a) || (a == name && InScope(scope, t) && t in p.claimed[..l])
    {
      var t := p.claimed[l];
      assert p.claimed[..l + 1] == p.claimed[..l] + [t];
      if InScope(scope, t) {
        holders := holders[t := (if t in holders then holders[t] else {}) + {name}];
      }
    }
    assert p.claimed[..|p.claimed|] == p.claimed;
  }

  lemma TwoMembers(s: set<Id>)
    ensures |s| > 1 <==> exists a, b :: a in s && b in s && a != b
  {
    if |s| > 1 {
      var a :| a in s;
      assert |s - {a}| > 0;
      var b :| b in s - {a};
    }
    if a, b :| a in s && b in s && a != b {
      assert |s - {a} - {b}| == |s| - 2;
    }
  }

  /** Issues that span agents: `MultipleClaimants`. */
  method AuditHolders(names: seq<Id>, m: Agents, board: Board, scope: Scope) returns (issues: seq<Issue>)
    requires forall n :: n in names <==> n in m
    ensures forall i :: i in issues <==> i.MultipleClaimants? && BoardFlag(m, board, scope, i)
  {
    issues := [];
    var holders := Holders(names, m, scope);
    var todo := holders.Keys;
    while todo != {}
      invariant todo <= holders.Keys
      invariant forall i :: i in issues <==>
                  i.MultipleClaimants? && i.task in holders.Keys - todo && |holders[i.task]| > 1
    {
      var t :| t in todo;
      if |holders[t]| > 1 { issues := issues + [MultipleClaimants(t)]; }
      todo := todo - {t};
    }
    forall i ensures i in issues <==> i.MultipleClaimants? && BoardFlag(m, board, scope, i) {
      if i.MultipleClaimants? { SharedIsFlagged(m, board, scope, holders, i.task); }
    }
  }

  lemma SharedIsFlagged(m: Agents, board: Board, scope: Scope, holders: map<Id, set<Id>>, t: Id)
    requires forall t, a :: Holds(holders, t, a) <==> a in m && ClaimsInScope(m[a], scope, t)
    ensures BoardFlag(m, board, scope, MultipleClaimants(t)) <==> t in holders && |holders[t]| > 1
  {
    if t in holders { TwoMembers(holders[t]); }
    if t in holders && |holders[t]| > 1 {
      var a, b :| a in holders[t] && b in holders[t] && a != b;
      assert Holds(holders, t, a) && Holds(holders, t, b);
    }
    if BoardFlag(m, board, scope, MultipleClaimants(t)) {
      var a, b :| a in m && b in m && a != b && t in m[a].claimed && t in m[b].claimed;
      assert Holds(holders, t, a) && Holds(holders, t, b);
    }
  }

  /** Owners of active cards without the claim. */
  method AuditOwners(m: Agents, board: Board, scope: Scope) returns (issues: seq<Issue>)
    requires DistinctIds(board)
    ensures forall i :: i in issues <==> i.OwnerClaimMissing? && BoardFlag(m, board, scope, i)
  {
    issues := [];
    for k := 0 to |board|
      invariant forall i :: i in issues <==>
                  i.OwnerClaimMissing? && BoardFlag(m, board, scope, i) && exists c :: c in board[..k] && c.id == i.task
    {
      var card := board[k];
      FindIs(board, card);
      assert board[..k + 1] == board[..k] + [card];
      if InScope(scope, card.id) && Truthy(card.owner) && Active(card.status) {
        if LacksClaim(m, card.owner.value, card.id) {
          issues := issues + [OwnerClaimMissing(card.id, card.owner.value)];
        }
      }
    }
    assert board[..|board|] == board;
  }

  /** Owners of in-scope doing cards that report none of their doing cards. */
  method AuditDoing(m: Agents, board: Board, scope: Scope) returns (issues: seq<Issue>)
    ensures forall i :: i in issues <==> i.DoingOwnerNotCurrent? && BoardFlag(m, board, scope, i)
  {
    issues := [];
    var doing := DoingByOwner(board);
    var todo := doing.Keys;
    while todo != {}
      invariant todo <= doing.Keys
      invariant forall i :: i in issues <==>
                  i.DoingOwnerNotCurrent? && i.agent in doing.Keys - todo && BoardFlag(m, board, scope, i)
    {
      var a :| a in todo;
      var scoped := StableSort(Filter(doing[a], InScopeOf(scope)), ID_KEY);
      FilterSort(doing[a], ID_KEY, InScopeOf(scope));
      DoingIdsAre(board, a);
      if scoped != [] && (a !in m || m[a].current.None? || m[a].current.value !in doing[a]) {
        issues := issues + [DoingOwnerNotCurrent(scoped[0], a)];
      }
      todo := todo - {a};
    }
    forall i: Issue | i.DoingOwnerNotCurrent? && BoardFlag(m, board, scope, i) ensures i.agent in doing {
      SortSorts(DoingIds(board, i.agent), ID_KEY);
    }
  }

  lemma DoingIdsAre(board: Board, a: Id)
    ensures forall t :: t in DoingOf(board, a) <==> t in DoingIds(board, a)
  {
    SortSorts(DoingIds(board, a), ID_KEY);
    forall t ensures t in DoingOf(board, a) <==> t in DoingIds(board, a) {
      assert t in DoingOf(board, a) <==> t in multiset(DoingIds(board, a));
    }
  }

  /** `_audit_lifecycle_unlocked`: lists exactly the disagreements, and is empty when there are none. */
  method Audit(names: seq<Id>, m: Agents, board: Board, scope: Scope) returns (issues: seq<Issue>)
    requires DistinctIds(board) && forall n :: n in names <==> n in m
    ensures forall i :: i in issues <==> Flagged(m, board, scope, i)
    ensures issues == [] <==> Clean(m, board, scope)
  {
    var perAgent: seq<Issue> := [];
    for k := 0 to |names|
      invariant forall i :: i in perAgent <==> exists n :: n in names[..k] && n in m && AgentFlag(m[n], board, scope, i)
    {
      assert names[k] in names;
      var more := AuditAgent(m[names[k]], board, scope);
      perAgent := perAgent + more;
      assert names[..k + 1] == names[..k] + [names[k]];
    }
    assert names[..|names|] == names;
    var shared := AuditHolders(names, m, board, scope);
    var missing := AuditOwners(m, board, scope);
    var doing := AuditDoing(m, board, scope);
    issues := perAgent + shared + missing + doing;
    if issues != [] { assert issues[0] in issues; }
  }

  /** `_assert_no_active_conflicts`: whether the repair may go on. */
  method AssertNoActiveConflicts(m: Agents, board: Board, scope: Scope, issues: seq<Issue>) returns (ok: bool)
    requires Named(m) && forall i :: i in issues <==> Flagged(m, board, scope, i)
    ensures ok <==> !ActiveConflict(m, board, scope)
  {
    ok := true;
    for k := 0 to |issues|
      invariant ok <==> forall l :: 0 <= l < k ==> !Stops(m, issues[l])
    {
      if Stops(m, issues[k]) { ok := false; }
    }
    if ActiveConflict(m, board, scope) {
      ConflictStops(m, board, scope);
      var i :| Flagged(m, board, scope, i) && Stops(m, i);
      assert i in issues;
    }
    if !ok {
      var l :| 0 <= l < |issues| && Stops(m, issues[l]);
      assert Flagged(m, board, scope, issues[l]);
      StopIsConflict(m, board, scope, issues[l]);
    }
  }

  /** The active agents that claim `t`. */
  function ActiveClaimants(m: Agents, t: Id): set<Id> {
    set n | n in m && t in m[n].claimed && m[n].active
  }

  predicate Stops(m: Agents, i: Issue) {
    match i
    case OrphanClaim(t, a) => a in m && m[a].active
    case ClaimantNotOwner(t, a) => a in m && m[a].active
    case MultipleClaimants(t) => |ActiveClaimants(m, t)| > 1
    case _ => false
  }

  lemma StopIsConflict(m: Agents, board: Board, scope: Scope, i: Issue)
    requires Named(m) && Flagged(m, board, scope, i) && Stops(m, i)
    ensures ActiveConflict(m, board, scope)
  {
    if i.MultipleClaimants? {
      TwoMembers(ActiveClaimants(m, i.task));
      var a, b :| a in ActiveClaimants(m, i.task) && b in ActiveClaimants(m, i.task) && a != b;
      assert ActivePair(m, scope);
    } else {
      var n :| n in m && AgentFlag(m[n], board, scope, i);
      assert i.OrphanClaim? ==> ActiveOrphan(m, board, scope);
      assert i.ClaimantNotOwner? ==> ActiveNonOwner(m, board, scope);
    }
  }

  lemma ConflictStops(m: Agents, board: Board, scope: Scope)
    requires Named(m) && ActiveConflict(m, board, scope)
    ensures exists i :: Flagged(m, board, scope, i) && Stops(m, i)
  {
    if ActiveOrphan(m, board, scope) {
      var n, t :| n in m && t in m[n].claimed && m[n].active && InScope(scope, t) && Find(board, t).None?;
      assert AgentFlag(m[n], board, scope, OrphanClaim(t, n));
      assert Flagged(m, board, scope, OrphanClaim(t, n));
    } else if ActiveNonOwner(m, board, scope) {
      var n, t :| n in m && t in m[n].claimed && m[n].active && InScope(scope, t) && NotOwner(board, t, n);
      assert AgentFlag(m[n], board, scope, ClaimantNotOwner(t, n));
      assert Flagged(m, board, scope, ClaimantNotOwner(t, n));
    } else {
      var a, b, t :| a in m && b in m && a != b && InScope(scope, t)
                     && t in m[a].claimed && m[a].active && t in m[b].claimed && m[b].active;
      assert a in ActiveClaimants(m, t) && b in ActiveClaimants(m, t);
      TwoMembers(ActiveClaimants(m, t));
      assert Flagged(m, board, scope, MultipleClaimants(t));
    }
  }
}
