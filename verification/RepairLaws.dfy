/**
  What one repair pass leaves every agent with, in terms of the agent and the board
  alone: its completion history, its claims and its current task.
*/
module RepairLaws {
  import opened Ordering
  import opened Sequences
  import opened Wrappers
  import opened CardFold
  import opened LifecycleAudit
  import opened LifecycleRepair

  // ----- The laws -----

  /** A card of the repaired scope, owned by the agent and in one of the columns. */
  ghost predicate HasCard(board: Board, scope: Scope, name: Id, t: Id, columns: set<Column>) {
    exists c :: c in board && c.id == t && InScope(scope, t) && OwnedBy(c, name) && c.status in columns
  }

  /** A completion is history unless its card is in scope and no longer done. */
  predicate CompletionStands(board: Board, scope: Scope, t: Id) {
    !InScope(scope, t) || Find(board, t).None? || Find(board, t).value.status == Done
  }

  /** A claim stands unless its card is in scope and finished, shelved, missing or another agent's. */
  predicate ClaimStands(p: Projection, board: Board, scope: Scope, t: Id) {
    || !InScope(scope, t)
    || (Find(board, t).None? && p.active)
    || (Find(board, t).Some? && Find(board, t).value.status in {Ready, Doing, Review}
        && (!Truthy(Find(board, t).value.owner) || Find(board, t).value.owner.value == p.name))
  }

  ghost predicate MyDoing(board: Board, name: Id, t: Id) {
    exists c :: c in board && c.id == t && OwnedBy(c, name) && c.status == Doing
  }

  /** The first in id order of the agent's doing cards that qualify, if any does. */
  ghost predicate Least(board: Board, name: Id, qualifies: Id -> bool, r: Option<Id>) {
    match r
    case None => forall t :: MyDoing(board, name, t) ==> !qualifies(t)
    case Some(u) =>
      MyDoing(board, name, u) && qualifies(u)
      && forall t :: MyDoing(board, name, t) && qualifies(t) ==> StrLeq(u, t)
  }

  /** The current task is claimed, and missing or in progress for nobody else. */
  ghost predicate CurrentStands(was: Projection, board: Board) {
    && was.current.Some? && was.current.value in was.claimed
    && match Find(board, was.current.value) {
         case None => was.active
         case Some(c) => c.status == Doing && (!Truthy(c.owner) || c.owner.value == was.name)
       }
  }

  /**
    An agent's own doing card stays current. Any other current task makes room for the
    first of the agent's doing cards in scope, if there is one; one in scope that does
    not stand makes room for the first that is in scope or claimed.
  */
  ghost predicate CurrentLaw(was: Projection, board: Board, scope: Scope, now: Option<Id>) {
    var inScope := (t: Id) => InScope(scope, t);
    var mine := was.current.Some? && MyDoing(board, was.name, was.current.value);
    var nothingElse := forall t :: MyDoing(board, was.name, t) ==> !inScope(t);
    var reviewed := scope.None? || (was.current.Some? && was.current.value in scope.value);
    if reviewed && !CurrentStands(was, board) then
      Least(board, was.name, (t: Id) => InScope(scope, t) || t in was.claimed, now)
    else if mine || nothingElse then now == was.current
    else Least(board, was.name, inScope, now)
  }

  // ----- The first of the doing cards -----

  lemma {:induction false} FirstIsLeast(s: seq<Id>, keep: Id -> bool)
    requires Sorted(s, ID_KEY)
    ensures var r := First(Filter(s, keep));
            match r
            case None => forall t :: t in s ==> !keep(t)
            case Some(u) => u in s && keep(u) && forall t :: t in s && keep(t) ==> StrLeq(u, t)
  {
    if s != [] {
      var rest := s[1..];
      assert s == [s[0]] + rest;
      assert forall i :: 0 <= i < |rest| ==> rest[i] == s[i + 1];
      FirstIsLeast(rest, keep);
      if keep(s[0]) {
        StrTotal(s[0], s[0]);
        forall t | t in rest ensures StrLeq(s[0], t) {
          var i :| 0 <= i < |rest| && rest[i] == t;
          assert KeyLeq(ID_KEY(s[0]), ID_KEY(s[i + 1]));
          StrTotal("", "");
        }
      }
    }
  }

  lemma FirstDoingIsLeast(board: Board, name: Id, qualifies: Id -> bool)
    ensures Least(board, name, qualifies, First(Filter(DoingOf(board, name), qualifies)))
  {
    SortSorts(DoingIds(board, name), ID_KEY);
    FirstIsLeast(DoingOf(board, name), qualifies);
    forall t ensures t in DoingOf(board, name) <==> MyDoing(board, name, t) {
      DoingOfHolds(board, name, t);
    }
  }

  // ----- Histories -----

  /** Every entry past the old ones is new, and there once. */
  ghost predicate NewOnes(old_: seq<Id>, now: seq<Id>) {
    |old_| <= |now| && forall i, j :: 0 <= i < j < |now| && |old_| <= j ==> now[i] != now[j]
  }

  /** The old entries, and after them each card of the agent in one of the columns that was not there. */
  ghost predicate Grown(old_: seq<Id>, now: seq<Id>, cards: Board, scope: Scope, name: Id, columns: set<Column>) {
    && old_ <= now && NewOnes(old_, now)
    && forall t :: t in now <==> t in old_ || HasCard(cards, scope, name, t, columns)
  }

  lemma HasCardSnoc(cards: Board, card: BoardCard, scope: Scope, name: Id)
    ensures forall t, columns :: HasCard(cards + [card], scope, name, t, columns) <==>
              (HasCard(cards, scope, name, t, columns)
               || (t == card.id && Counts(card, name, scope) && card.status in columns))
  {
    forall t, columns | HasCard(cards, scope, name, t, columns)
      ensures HasCard(cards + [card], scope, name, t, columns)
    {
      var c :| c in cards && c.id == t && InScope(scope, t) && OwnedBy(c, name) && c.status in columns;
      assert c in cards + [card];
    }
    assert card in cards + [card];
  }

  lemma GrownStep(old_: seq<Id>, now: seq<Id>, cards: Board, card: BoardCard, scope: Scope, name: Id,
                  columns: set<Column>)
    requires Grown(old_, now, cards, scope, name, columns)
    ensures var credited := Counts(card, name, scope) && card.status in columns && card.id !in now;
            Grown(old_, if credited then now + [card.id] else now, cards + [card], scope, name, columns)
  {
    HasCardSnoc(cards, card, scope, name);
  }

  /** Crediting appends the done cards the agent owns and did not list; a tidy history loses nothing. */
  lemma {:induction false} CompletionsGrow(p: Projection, n: nat, board: Board, scope: Scope)
    requires DistinctIds(board) && Tidy(p, board, scope) && n <= |board|
    ensures Grown(p.completed, CreditOver(p, board[..n], board, scope).completed, board[..n], scope, p.name, {Done})
  {
    if n > 0 {
      CompletionsGrow(p, n - 1, board, scope);
      CreditOverSettles(p, n - 1, board, scope);
      CreditKeepsName(p, board[..n - 1], board, scope);
      var q, card := CreditOver(p, board[..n - 1], board, scope), board[n - 1];
      assert board[..n][..n - 1] == board[..n - 1] && board[..n] == board[..n - 1] + [card];
      assert CreditOver(p, board[..n], board, scope)
             == if Counts(card, p.name, scope) then Credit(q, card, board, scope) else q;
      if Counts(card, p.name, scope) { CompletedOnce(q, card, board, scope); }
      assert CreditOver(p, board[..n], board, scope).completed
             == if Counts(card, p.name, scope) && card.status in {Done} && card.id !in q.completed
                then q.completed + [card.id] else q.completed;
      GrownStep(p.completed, q.completed, board[..n - 1], card, scope, p.name, {Done});
    }
  }

  lemma CompletedOnce(q: Projection, card: BoardCard, board: Board, scope: Scope)
    requires DistinctIds(board) && card in board && Counts(card, q.name, scope) && Tidy(q, board, scope)
    ensures Credit(q, card, board, scope).completed
            == if card.status == Done && card.id !in q.completed then q.completed + [card.id] else q.completed
  {
    FindIs(board, card);
    RemoveFirstDrops(q.completed, card.id);
    if card.id in q.completed { assert StaysCompleted(board, scope)(card.id); }
  }

  /** Crediting appends the active cards the agent owns and did not claim. */
  lemma {:induction false} ClaimsGrow(p: Projection, n: nat, board: Board, scope: Scope)
    requires n <= |board|
    ensures Grown(p.claimed, CreditOver(p, board[..n], board, scope).claimed, board[..n], scope, p.name,
                  {Ready, Doing, Review})
  {
    if n > 0 {
      ClaimsGrow(p, n - 1, board, scope);
      CreditKeepsName(p, board[..n - 1], board, scope);
      var q, card := CreditOver(p, board[..n - 1], board, scope), board[n - 1];
      assert board[..n][..n - 1] == board[..n - 1] && board[..n] == board[..n - 1] + [card];
      assert CreditOver(p, board[..n], board, scope)
             == if Counts(card, p.name, scope) then Credit(q, card, board, scope) else q;
      ClaimedOnce(q, card, board, scope);
      assert CreditOver(p, board[..n], board, scope).claimed
             == if Counts(card, p.name, scope) && card.status in {Ready, Doing, Review} && card.id !in q.claimed
                then q.claimed + [card.id] else q.claimed;
      GrownStep(p.claimed, q.claimed, board[..n - 1], card, scope, p.name, {Ready, Doing, Review});
    }
  }

  lemma ClaimedOnce(q: Projection, card: BoardCard, board: Board, scope: Scope)
    ensures Credit(q, card, board, scope).claimed
            == if card.status in {Ready, Doing, Review} && card.id !in q.claimed then q.claimed + [card.id]
               else q.claimed
  {
  }

  /** An agent after a pass: the credits of the whole board over the settled agent. */
  lemma PassIs(m: Agents, board: Board, scope: Scope, n: Id) returns (p: Projection)
    requires Named(m) && DistinctIds(board)
    ensures p == if n in m then Settle(m[n], board, scope) else Fresh(n)
    ensures p.name == n && Tidy(p, board, scope)
    ensures Get(Repaired(m, board, scope), n) == CreditOver(p, board[..|board|], board, scope)
    ensures board[..|board|] == board
  {
    p := if n in m then Settle(m[n], board, scope) else Fresh(n);
    assert board[..|board|] == board;
    CreditsArePerAgent(SettleAll(m, board, scope), board, board, scope, n);
    if n in m { SettleTidies(m[n], board, scope); } else { FreshIsTidy(n, board, scope); }
  }

  /**
    The completion history after a pass: the entries that stand, in their order and as
    often as they were listed, then each done card of the agent that was not among them.
  */
  lemma CompletedAfterPass(m: Agents, board: Board, scope: Scope, n: Id)
    requires Named(m) && DistinctIds(board)
    ensures var was, now := Get(m, n).completed, Get(Repaired(m, board, scope), n).completed;
            var stood := Filter(was, (t: Id) => CompletionStands(board, scope, t));
            && stood <= now && NewOnes(stood, now)
            && forall t :: t in now <==>
                 (t in was && CompletionStands(board, scope, t)) || HasCard(board, scope, n, t, {Done})
  {
    var p := PassIs(m, board, scope, n);
    var was := Get(m, n).completed;
    var stands := (t: Id) => CompletionStands(board, scope, t);
    CompletionsGrow(p, |board|, board, scope);
    FilterAgree(was, StaysCompleted(board, scope), stands);
    assert p.completed == Filter(was, stands);
    forall t ensures t in p.completed <==> t in was && CompletionStands(board, scope, t) {
      FilterMember(was, stands, t);
    }
  }

  /**
    The claims after a pass: those that stand, once each in the order they were first
    listed, then each active card of the agent that was not among them.
  */
  lemma ClaimedAfterPass(m: Agents, board: Board, scope: Scope, n: Id)
    requires Named(m) && DistinctIds(board)
    ensures var was, now := Get(m, n), Get(Repaired(m, board, scope), n).claimed;
            var stood := Dedupe(Filter(was.claimed, (t: Id) => ClaimStands(was, board, scope, t)));
            && stood <= now && Distinct(now)
            && forall t :: t in now <==>
                 (t in was.claimed && ClaimStands(was, board, scope, t))
                 || HasCard(board, scope, n, t, {Ready, Doing, Review})
  {
    var p := PassIs(m, board, scope, n);
    StandingClaims(Get(m, n), board, scope);
    ClaimsGrow(p, |board|, board, scope);
    CreditOverSettles(p, |board|, board, scope);
  }

  lemma StandingClaims(was: Projection, board: Board, scope: Scope)
    ensures var stood := Dedupe(Filter(was.claimed, (t: Id) => ClaimStands(was, board, scope, t)));
            && Settle(was, board, scope).claimed == stood
            && forall t :: t in stood <==> t in was.claimed && ClaimStands(was, board, scope, t)
  {
    var stands := (t: Id) => ClaimStands(was, board, scope, t);
    FilterAgree(was.claimed, Keeps(was, board, scope), stands);
    DedupeKeeps(Filter(was.claimed, stands));
    forall t ensures t in Filter(was.claimed, stands) <==> t in was.claimed && ClaimStands(was, board, scope, t) {
      FilterMember(was.claimed, stands, t);
    }
  }

  // ----- The current task -----

  lemma SettledCurrentIs(p: Projection, board: Board, scope: Scope)
    ensures var now := Settle(p, board, scope).current;
            if (scope.None? || (p.current.Some? && p.current.value in scope.value)) && !CurrentStands(p, board)
            then Least(board, p.name, (t: Id) => InScope(scope, t) || t in p.claimed, now)
            else now == p.current
  {
    var kept := Filter(p.claimed, Keeps(p, board, scope));
    var claimed := Dedupe(kept);
    DedupeKeeps(kept);
    forall t ensures t in claimed <==> t in p.claimed && Keeps(p, board, scope)(t) {
      FilterMember(p.claimed, Keeps(p, board, scope), t);
    }
    var some, wide := (t: Id) => t in claimed || InScope(scope, t), (t: Id) => InScope(scope, t) || t in p.claimed;
    FilterAgree(DoingOf(board, p.name), some, wide);
    FirstDoingIsLeast(board, p.name, wide);
    assert CurrentInScope(p.current, scope) ==> (MayStay(p.current, claimed, board) <==> CurrentStands(p, board));
  }

  /** Crediting a doing card replaces a current task that is no doing card of the agent, once. */
  lemma {:induction false} CreditedCurrentOver(p: Projection, n: nat, board: Board, scope: Scope)
    requires DistinctIds(board) && Tidy(p, board, scope) && n <= |board|
    ensures CreditOver(p, board[..n], board, scope).current
            == if (p.current.Some? && p.current.value in DoingOf(board, p.name))
                  || !(exists c :: c in board[..n] && Counts(c, p.name, scope) && c.status == Doing)
               then p.current
               else First(Filter(DoingOf(board, p.name), (t: Id) => InScope(scope, t)))
  {
    if n > 0 {
      CreditedCurrentOver(p, n - 1, board, scope);
      CreditOverSettles(p, n - 1, board, scope);
      CreditKeepsName(p, board[..n - 1], board, scope);
      var q, card := CreditOver(p, board[..n - 1], board, scope), board[n - 1];
      assert board[..n][..n - 1] == board[..n - 1] && board[..n] == board[..n - 1] + [card];
      assert CreditOver(p, board[..n], board, scope)
             == if Counts(card, p.name, scope) then Credit(q, card, board, scope) else q;
      if Counts(card, p.name, scope) { CreditedCurrentStep(q, card, board, scope); }
    }
  }

  lemma CreditedCurrentStep(q: Projection, card: BoardCard, board: Board, scope: Scope)
    requires DistinctIds(board) && card in board && Counts(card, q.name, scope) && Tidy(q, board, scope)
    ensures var first := First(Filter(DoingOf(board, q.name), (t: Id) => InScope(scope, t)));
            && (card.status == Doing ==> first.Some? && first.value in DoingOf(board, q.name))
            && Credit(q, card, board, scope).current
               == if card.status == Doing && !(q.current.Some? && q.current.value in DoingOf(board, q.name))
                  then first else q.current
  {
    if card.status == Doing {
      CreditedCurrentIs(q.(current := None), card, board, scope);
    } else {
      CurrentSurvives(q, card, board, scope);
    }
  }

  /** The current task `s` after the first loop and `f` after the second. */
  lemma BothLoops(was: Projection, board: Board, scope: Scope, s: Option<Id>, f: Option<Id>, first: Option<Id>)
    requires if (scope.None? || (was.current.Some? && was.current.value in scope.value)) && !CurrentStands(was, board)
             then Least(board, was.name, (t: Id) => InScope(scope, t) || t in was.claimed, s)
             else s == was.current
    requires Least(board, was.name, (t: Id) => InScope(scope, t), first)
    requires f == if (s.Some? && MyDoing(board, was.name, s.value)) || first.None? then s else first
    ensures CurrentLaw(was, board, scope, f)
  {
  }

  /** An agent in no file gets the first of its doing cards in scope. */
  lemma FreshCurrent(was: Projection, board: Board, scope: Scope, first: Option<Id>)
    requires was == Fresh(was.name) && Least(board, was.name, (t: Id) => InScope(scope, t), first)
    ensures CurrentLaw(was, board, scope, first)
  {
  }

  lemma SomeDoing(board: Board, scope: Scope, name: Id, first: Option<Id>)
    requires Least(board, name, (t: Id) => InScope(scope, t), first)
    ensures first.Some? <==> exists c :: c in board && Counts(c, name, scope) && c.status == Doing
  {
    if first.None? {
      forall c | c in board && Counts(c, name, scope) ensures c.status != Doing {
        if c.status == Doing { assert MyDoing(board, name, c.id); }
      }
    }
  }

  /** Which task is current after a pass, and when the old one is kept. */
  lemma CurrentAfterPass(m: Agents, board: Board, scope: Scope, n: Id)
    requires Named(m) && DistinctIds(board)
    ensures CurrentLaw(Get(m, n), board, scope, Get(Repaired(m, board, scope), n).current)
  {
    var p := PassIs(m, board, scope, n);
    var first := First(Filter(DoingOf(board, n), (t: Id) => InScope(scope, t)));
    CreditedCurrentOver(p, |board|, board, scope);
    FirstDoingIsLeast(board, n, (t: Id) => InScope(scope, t));
    SomeDoing(board, scope, n, first);
    if n in m {
      SettledCurrentIs(m[n], board, scope);
      if p.current.Some? { DoingOfHolds(board, n, p.current.value); }
      BothLoops(m[n], board, scope, p.current, Get(Repaired(m, board, scope), n).current, first);
    } else {
      FreshCurrent(Fresh(n), board, scope, first);
    }
  }

  // ----- Which agents have a file -----

  /** A pass writes for the agents it knew and for the owners of cards to credit, and changes no other field. */
  lemma FilesAfterPass(m: Agents, board: Board, scope: Scope, n: Id)
    requires Named(m) && DistinctIds(board)
    ensures n in Repaired(m, board, scope)
            <==> n in m || exists c :: c in board && InScope(scope, c.id) && OwnedBy(c, n) && c.status != Backlog
    ensures var was, now := Get(m, n), Get(Repaired(m, board, scope), n); now.name == n && now.active == was.active
  {
    var p := PassIs(m, board, scope, n);
    CreditKeepsName(p, board, board, scope);
    CreditsArePerAgent(SettleAll(m, board, scope), board, board, scope, n);
    if n !in m && n in Repaired(m, board, scope) {
      var c := WrittenHasCard(Fresh(n), |board|, board, scope);
    }
    if c :| c in board && InScope(scope, c.id) && OwnedBy(c, n) && c.status != Backlog {
      OwnerIsWritten(m, board, scope, c);
    }
  }

  // ----- What a clean audit says -----

  /** One agent's file agrees with the board, as far as the scope goes. */
  ghost predicate AgentAgrees(p: Projection, board: Board, scope: Scope) {
    && (forall t :: t in p.claimed && InScope(scope, t) ==>
          Find(board, t).Some? && Find(board, t).value.status in {Ready, Doing, Review}
          && (!Truthy(Find(board, t).value.owner) || Find(board, t).value.owner.value == p.name))
    && (forall t :: t in p.completed && InScope(scope, t) ==>
          Find(board, t).None? || Find(board, t).value.status == Done)
    && (p.current.Some? && p.current.value != "" && InScope(scope, p.current.value) ==>
          p.current.value in p.claimed && Find(board, p.current.value).Some?
          && Find(board, p.current.value).value.status in {Ready, Doing})
  }

  /** The board's owners and the agents' claims agree, as far as the scope goes. */
  ghost predicate BoardAgrees(m: Agents, board: Board, scope: Scope) {
    && (forall a, b, t :: a in m && b in m && InScope(scope, t) && t in m[a].claimed && t in m[b].claimed ==> a == b)
    && (forall c :: c in board && InScope(scope, c.id) && Truthy(c.owner) && c.status in {Ready, Doing, Review} ==>
          c.owner.value in m && c.id in m[c.owner.value].claimed)
    && (forall c :: c in board && InScope(scope, c.id) && Truthy(c.owner) && c.status == Doing ==>
          c.owner.value in m && m[c.owner.value].current.Some?
          && MyDoing(board, c.owner.value, m[c.owner.value].current.value))
  }

  /** Which rule an agent's file breaks at a task says how the two disagree. */
  lemma RulesSayWhy(p: Projection, board: Board, scope: Scope, t: Id)
    requires InScope(scope, t)
    ensures var column := if Find(board, t).Some? then Some(Find(board, t).value.status) else None;
            var current := p.current == Some(t) && t != "";
            && (AgentFlag(p, board, scope, CurrentNotClaimed(t, p.name)) <==> current && t !in p.claimed)
            && (AgentFlag(p, board, scope, ReviewReportedActive(t, p.name)) <==> current && column == Some(Review))
            && (AgentFlag(p, board, scope, DoneReportedActive(t, p.name)) <==> current && column == Some(Done))
            && (AgentFlag(p, board, scope, OrphanClaim(t, p.name)) <==> t in p.claimed && column == None)
            && (AgentFlag(p, board, scope, DoneStillClaimed(t, p.name)) <==> t in p.claimed && column == Some(Done))
            && (AgentFlag(p, board, scope, BacklogStillClaimed(t, p.name))
                <==> t in p.claimed && column == Some(Backlog))
            && (AgentFlag(p, board, scope, ClaimantNotOwner(t, p.name))
                <==> t in p.claimed && column in {Some(Ready), Some(Doing), Some(Review)}
                     && Find(board, t).value.owner.Some? && Find(board, t).value.owner.value !in {"", p.name})
            && (AgentFlag(p, board, scope, ReopenedStillCompleted(t, p.name))
                <==> t in p.completed && column !in {None, Some(Done)})
  {
  }

  lemma AgentIsClean(p: Projection, board: Board, scope: Scope)
    ensures (forall i :: !AgentFlag(p, board, scope, i)) <==> AgentAgrees(p, board, scope)
  {
    if !AgentAgrees(p, board, scope) { var i := AgentIssue(p, board, scope); }
  }

  /** Wherever an agent's file and the board disagree, some rule is broken. */
  lemma AgentIssue(p: Projection, board: Board, scope: Scope) returns (i: Issue)
    requires !AgentAgrees(p, board, scope)
    ensures AgentFlag(p, board, scope, i)
  {
    if t :| t in p.claimed && InScope(scope, t)
            && !(Find(board, t).Some? && Find(board, t).value.status in {Ready, Doing, Review}
                 && (!Truthy(Find(board, t).value.owner) || Find(board, t).value.owner.value == p.name))
    {
      i := ClaimIssue(p, board, t).value;
    } else if t :| t in p.completed && InScope(scope, t)
                   && !(Find(board, t).None? || Find(board, t).value.status == Done)
    {
      i := ReopenedStillCompleted(t, p.name);
    } else if p.current.value !in p.claimed {
      i := CurrentNotClaimed(p.current.value, p.name);
    } else {
      i := ReviewReportedActive(p.current.value, p.name);
    }
  }

  lemma OwnersAreServed(m: Agents, board: Board, scope: Scope, c: BoardCard)
    requires DistinctIds(board) && c in board && InScope(scope, c.id) && Truthy(c.owner)
    requires forall i :: !BoardFlag(m, board, scope, i)
    ensures c.status in {Ready, Doing, Review} ==> c.owner.value in m && c.id in m[c.owner.value].claimed
    ensures c.status == Doing ==> c.owner.value in m && m[c.owner.value].current.Some?
                                  && MyDoing(board, c.owner.value, m[c.owner.value].current.value)
  {
    var a := c.owner.value;
    FindIs(board, c);
    assert !BoardFlag(m, board, scope, OwnerClaimMissing(c.id, a));
    if c.status == Doing {
      var scoped := Filter(DoingOf(board, a), InScopeOf(scope));
      DoingOfHolds(board, a, c.id);
      FilterMember(DoingOf(board, a), InScopeOf(scope), c.id);
      assert !BoardFlag(m, board, scope, DoingOwnerNotCurrent(scoped[0], a));
      DoingOfHolds(board, a, m[a].current.value);
    }
  }

  lemma BoardIsClean(m: Agents, board: Board, scope: Scope)
    requires DistinctIds(board)
    ensures (forall i :: !BoardFlag(m, board, scope, i)) <==> BoardAgrees(m, board, scope)
  {
    if forall i :: !BoardFlag(m, board, scope, i) {
      forall a, b, t | a in m && b in m && InScope(scope, t) && t in m[a].claimed && t in m[b].claimed ensures a == b {
        assert !BoardFlag(m, board, scope, MultipleClaimants(t));
      }
      forall c | c in board && InScope(scope, c.id) && Truthy(c.owner)
        ensures c.status in {Ready, Doing, Review} ==> c.owner.value in m && c.id in m[c.owner.value].claimed
        ensures c.status == Doing ==> c.owner.value in m && m[c.owner.value].current.Some?
                                      && MyDoing(board, c.owner.value, m[c.owner.value].current.value)
      {
        OwnersAreServed(m, board, scope, c);
      }
    }
    if BoardAgrees(m, board, scope) {
      forall i ensures !BoardFlag(m, board, scope, i) { NoBoardFlag(m, board, scope, i); }
    }
  }

  lemma NoBoardFlag(m: Agents, board: Board, scope: Scope, i: Issue)
    requires DistinctIds(board) && BoardAgrees(m, board, scope)
    ensures !BoardFlag(m, board, scope, i)
  {
    if i.DoingOwnerNotCurrent? && NotCurrent(m, board, scope, i.task, i.agent) {
      FilterMember(DoingOf(board, i.agent), InScopeOf(scope), i.task);
      DoingIsFound(board, i.agent, i.task);
      DoingOfHolds(board, i.agent, m[i.agent].current.value);
    }
  }

  /** An audit is clean exactly when every file agrees with the board and the board with the files. */
  lemma CleanIsAgreement(m: Agents, board: Board, scope: Scope)
    requires DistinctIds(board)
    ensures Clean(m, board, scope)
            <==> (forall n :: n in m ==> AgentAgrees(m[n], board, scope)) && BoardAgrees(m, board, scope)
  {
    BoardIsClean(m, board, scope);
    forall n | n in m ensures (forall i :: !AgentFlag(m[n], board, scope, i)) <==> AgentAgrees(m[n], board, scope) {
      AgentIsClean(m[n], board, scope);
    }
    if Clean(m, board, scope) {
      forall i ensures !BoardFlag(m, board, scope, i) { assert !Flagged(m, board, scope, i); }
      forall n, i | n in m ensures !AgentFlag(m[n], board, scope, i) { assert !Flagged(m, board, scope, i); }
    }
  }
}
