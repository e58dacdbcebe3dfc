/**
  Repairing agent projections to the card store (`lifecycle._repair_lifecycle_unlocked`):
  what one pass of its two loops makes of every agent, and when the audit is clean
  afterwards.
*/
module LifecycleRepair {
  import opened Ordering
  import opened Sequences
  import opened Wrappers
  import opened CardFold
  import opened LifecycleAudit

  // ----- The first loop: one agent against the board -----

  /** Whether a claim survives the first loop. */
  function Keeps(p: Projection, board: Board, scope: Scope): Id -> bool {
    (t: Id) =>
      var card := Find(board, t);
      if !InScope(scope, t) then true
      else if card.None? then p.active
      else Active(card.value.status) && !OwnedByAnother(card.value, p.name)
  }

  /** Whether a completion survives the first loop. */
  function StaysCompleted(board: Board, scope: Scope): Id -> bool {
    (t: Id) => !(InScope(scope, t) && Find(board, t).Some? && Find(board, t).value.status != Done)
  }

  function First(s: seq<Id>): Option<Id> {
    if s == [] then None else Some(s[0])
  }

  /** `task_ids is None or current_task in task_ids`: no current task is in no set. */
  predicate CurrentInScope(current: Option<Id>, scope: Scope) {
    scope.None? || (current.Some? && current.value in scope.value)
  }

  /** The current task is claimed and its card, if there is one, is in progress. */
  predicate MayStay(current: Option<Id>, claimed: seq<Id>, board: Board) {
    current.Some? && current.value in claimed
    && (Find(board, current.value).Some? ==> Find(board, current.value).value.status == Doing)
  }

  function SettledCurrent(p: Projection, claimed: seq<Id>, board: Board, scope: Scope): Option<Id> {
    if !CurrentInScope(p.current, scope) || MayStay(p.current, claimed, board) then p.current
    else First(Filter(DoingOf(board, p.name), (t: Id) => t in claimed || InScope(scope, t)))
  }

  function Settle(p: Projection, board: Board, scope: Scope): Projection {
    var claimed := Dedupe(Filter(p.claimed, Keeps(p, board, scope)));
    p.(claimed := claimed,
       current := SettledCurrent(p, claimed, board, scope),
       completed := Filter(p.completed, StaysCompleted(board, scope)))
  }

  // ----- The second loop: one owned card against its owner -----

  function With(s: seq<Id>, t: Id): seq<Id> {
    if t in s then s else s + [t]
  }

  function CreditedCurrent(p: Projection, card: BoardCard, board: Board, scope: Scope): Option<Id> {
    var doing := DoingOf(board, p.name);
    if card.status == Doing then
      if p.current.Some? && p.current.value in doing then p.current
      else First(Filter(doing, (t: Id) => InScope(scope, t)))
    else if p.current == Some(card.id) then None
    else p.current
  }

  function Credit(p: Projection, card: BoardCard, board: Board, scope: Scope): Projection {
    if card.status == Done then p.(completed := With(p.completed, card.id))
    else if Active(card.status) then
      p.(claimed := With(p.claimed, card.id),
         completed := RemoveFirst(p.completed, card.id),
         current := CreditedCurrent(p, card, board, scope))
    else p
  }

  /** The cards of `cards` that the second loop credits to `name`. */
  predicate Counts(card: BoardCard, name: Id, scope: Scope) {
    InScope(scope, card.id) && OwnedBy(card, name)
  }

  function CreditOver(p: Projection, cards: Board, board: Board, scope: Scope): Projection
    decreases |cards|
  {
    if cards == [] then p
    else
      var q, card := CreditOver(p, cards[..|cards| - 1], board, scope), cards[|cards| - 1];
      if Counts(card, p.name, scope) then Credit(q, card, board, scope) else q
  }

  // ----- Both loops over every agent -----

  function SettleAll(m: Agents, board: Board, scope: Scope): Agents {
    map n | n in m :: Settle(m[n], board, scope)
  }

  function CreditOne(m: Agents, card: BoardCard, board: Board, scope: Scope): Agents {
    if !InScope(scope, card.id) || !Truthy(card.owner) then m
    else
      var was := Get(m, card.owner.value);
      var now := Credit(was, card, board, scope);
      if now == was then m else m[card.owner.value := now]
  }

  function CreditAll(m: Agents, cards: Board, board: Board, scope: Scope): Agents
    decreases |cards|
  {
    if cards == [] then m
    else CreditOne(CreditAll(m, cards[..|cards| - 1], board, scope), cards[|cards| - 1], board, scope)
  }

  function Repaired(m: Agents, board: Board, scope: Scope): Agents {
    CreditAll(SettleAll(m, board, scope), board, board, scope)
  }

  // ----- Each agent's outcome depends on that agent and the board alone -----

  lemma {:induction false} CreditKeepsName(p: Projection, cards: Board, board: Board, scope: Scope)
    ensures CreditOver(p, cards, board, scope).name == p.name
    ensures CreditOver(p, cards, board, scope).active == p.active
    decreases |cards|
  {
    if cards != [] { CreditKeepsName(p, cards[..|cards| - 1], board, scope); }
  }

  lemma {:induction false} CreditsArePerAgent(m: Agents, cards: Board, board: Board, scope: Scope, n: Id)
    requires Named(m)
    ensures Named(CreditAll(m, cards, board, scope))
    ensures Get(CreditAll(m, cards, board, scope), n) == CreditOver(Get(m, n), cards, board, scope)
    ensures n in CreditAll(m, cards, board, scope)
            <==> n in m || CreditOver(Fresh(n), cards, board, scope) != Fresh(n)
    decreases |cards|
  {
    if cards != [] {
      CreditsArePerAgent(m, cards[..|cards| - 1], board, scope, n);
      CreditKeepsName(Get(m, n), cards[..|cards| - 1], board, scope);
    }
  }

  // ----- What the first loop establishes and the second keeps -----

  /** An in-scope current task is claimed or about to be, and is in progress. */
  ghost predicate CurrentIsSound(p: Projection, board: Board, scope: Scope) {
    p.current.Some? && InScope(scope, p.current.value) ==>
      && (p.current.value in p.claimed || p.current.value in DoingOf(board, p.name))
      && (Find(board, p.current.value).Some? ==> Find(board, p.current.value).value.status == Doing)
  }

  ghost predicate Tidy(p: Projection, board: Board, scope: Scope) {
    && Distinct(p.claimed)
    && (forall t :: t in p.claimed ==> Keeps(p, board, scope)(t))
    && (forall t :: t in p.completed ==> StaysCompleted(board, scope)(t))
    && CurrentIsSound(p, board, scope)
  }

  /** `card` has been credited to its owner `p`. */
  ghost predicate Credited(p: Projection, card: BoardCard, board: Board) {
    && (card.status == Done ==> card.id in p.completed)
    && (Active(card.status) ==> card.id in p.claimed)
    && (card.status == Doing ==> p.current.Some? && p.current.value in DoingOf(board, p.name))
  }

  ghost predicate AllCredited(p: Projection, cards: Board, board: Board, scope: Scope) {
    forall c :: c in cards && Counts(c, p.name, scope) ==> Credited(p, c, board)
  }

  /** What one pass makes of an agent, and what the next pass leaves alone. */
  ghost predicate Settled(p: Projection, board: Board, scope: Scope) {
    Tidy(p, board, scope) && AllCredited(p, board, board, scope)
  }

  lemma FirstOf(s: seq<Id>, keep: Id -> bool, t: Id)
    requires First(Filter(s, keep)) == Some(t)
    ensures t in s && keep(t)
  {
    FilterMember(s, keep, t);
  }

  /** The ids of doing cards are the ids of cards that are doing. */
  lemma DoingIsFound(board: Board, name: Id, t: Id)
    requires DistinctIds(board) && t in DoingOf(board, name)
    ensures Find(board, t).Some? && OwnedBy(Find(board, t).value, name) && Find(board, t).value.status == Doing
  {
    DoingOfHolds(board, name, t);
    var c :| c in board && OwnedBy(c, name) && c.status == Doing && c.id == t;
    FindIs(board, c);
  }

  lemma SettleTidies(p: Projection, board: Board, scope: Scope)
    requires DistinctIds(board)
    ensures Tidy(Settle(p, board, scope), board, scope)
  {
    var q, kept := Settle(p, board, scope), Filter(p.claimed, Keeps(p, board, scope));
    DedupeKeeps(kept);
    forall t | t in q.claimed ensures Keeps(q, board, scope)(t) {
      FilterMember(p.claimed, Keeps(p, board, scope), t);
    }
    forall t | t in q.completed ensures StaysCompleted(board, scope)(t) {
      FilterMember(p.completed, StaysCompleted(board, scope), t);
    }
    if q.current.Some? && InScope(scope, q.current.value) && !MayStay(q.current, q.claimed, board) {
      FirstOf(DoingOf(board, p.name), (t: Id) => t in q.claimed || InScope(scope, t), q.current.value);
      DoingIsFound(board, p.name, q.current.value);
    }
  }

  lemma FreshIsTidy(name: Id, board: Board, scope: Scope)
    ensures Tidy(Fresh(name), board, scope)
  {
  }

  /** A doing card of the owner is always there to be made current. */
  lemma CreditedCurrentIs(p: Projection, card: BoardCard, board: Board, scope: Scope)
    requires DistinctIds(board) && card in board && Counts(card, p.name, scope) && card.status == Doing
    ensures CreditedCurrent(p, card, board, scope).Some?
    ensures var t := CreditedCurrent(p, card, board, scope).value;
            t in DoingOf(board, p.name) && (p.current == Some(t) || InScope(scope, t))
  {
    var doing, keep := DoingOf(board, p.name), (t: Id) => InScope(scope, t);
    DoingOfHolds(board, p.name, card.id);
    FilterMember(doing, keep, card.id);
    if !(p.current.Some? && p.current.value in doing) {
      FirstOf(doing, keep, CreditedCurrent(p, card, board, scope).value);
    }
  }

  lemma CreditTidies(p: Projection, card: BoardCard, board: Board, scope: Scope)
    requires DistinctIds(board) && card in board && Counts(card, p.name, scope)
    requires Tidy(p, board, scope)
    ensures Tidy(Credit(p, card, board, scope), board, scope)
  {
    var q := Credit(p, card, board, scope);
    FindIs(board, card);
    RemoveFirstDrops(p.completed, card.id);
    if Active(card.status) && card.status == Doing {
      CreditedCurrentIs(p, card, board, scope);
      DoingIsFound(board, p.name, q.current.value);
    }
  }

  /** A card in review or ready is never the current task of a tidy owner. */
  lemma CurrentSurvives(p: Projection, card: BoardCard, board: Board, scope: Scope)
    requires DistinctIds(board) && card in board && Counts(card, p.name, scope)
    requires Tidy(p, board, scope) && card.status != Doing
    ensures Credit(p, card, board, scope).current == p.current
  {
    FindIs(board, card);
  }

  lemma CreditCredits(p: Projection, card: BoardCard, cards: Board, board: Board, scope: Scope)
    requires DistinctIds(board) && card in board && Counts(card, p.name, scope)
    requires Tidy(p, board, scope) && AllCredited(p, cards, board, scope)
    requires forall c :: c in cards ==> c in board && c.id != card.id
    ensures AllCredited(Credit(p, card, board, scope), cards + [card], board, scope)
  {
    var q := Credit(p, card, board, scope);
    RemoveFirstDrops(p.completed, card.id);
    if card.status == Doing { CreditedCurrentIs(p, card, board, scope); }
    else { CurrentSurvives(p, card, board, scope); }
    forall c | c in cards + [card] && Counts(c, q.name, scope) ensures Credited(q, c, board) {
      if c in cards { assert Credited(p, c, board); }
    }
  }

  lemma {:induction false} CreditOverSettles(p: Projection, n: nat, board: Board, scope: Scope)
    requires DistinctIds(board) && Tidy(p, board, scope) && n <= |board|
    ensures Tidy(CreditOver(p, board[..n], board, scope), board, scope)
    ensures AllCredited(CreditOver(p, board[..n], board, scope), board[..n], board, scope)
  {
    if n > 0 {
      CreditOverSettles(p, n - 1, board, scope);
      CreditKeepsName(p, board[..n - 1], board, scope);
      var q, card := CreditOver(p, board[..n - 1], board, scope), board[n - 1];
      assert board[..n][..n - 1] == board[..n - 1] && board[..n] == board[..n - 1] + [card];
      if Counts(card, p.name, scope) {
        CreditTidies(q, card, board, scope);
        CreditCredits(q, card, board[..n - 1], board, scope);
      }
    }
  }

  /** One pass settles every agent. */
  lemma RepairSettles(m: Agents, board: Board, scope: Scope)
    requires Named(m) && DistinctIds(board)
    ensures Named(Repaired(m, board, scope))
    ensures forall n :: n in Repaired(m, board, scope) ==> Settled(Repaired(m, board, scope)[n], board, scope)
  {
    var settled := SettleAll(m, board, scope);
    CreditsArePerAgent(settled, board, board, scope, "");
    assert board[..|board|] == board;
    forall n | n in Repaired(m, board, scope) ensures Settled(Repaired(m, board, scope)[n], board, scope) {
      CreditsArePerAgent(settled, board, board, scope, n);
      if n in m { SettleTidies(m[n], board, scope); } else { FreshIsTidy(n, board, scope); }
      CreditOverSettles(Get(settled, n), |board|, board, scope);
      CreditKeepsName(Get(settled, n), board, board, scope);
    }
  }

  // ----- A settled agent is a fixed point of both loops -----

  lemma {:induction false} FilterAll(s: seq<Id>, keep: Id -> bool)
    requires forall t :: t in s ==> keep(t)
    ensures Filter(s, keep) == s
  {
    if s != [] { FilterAll(s[1..], keep); }
  }

  lemma SettledCurrentStays(p: Projection, board: Board, scope: Scope)
    requires DistinctIds(board) && Settled(p, board, scope)
    ensures SettledCurrent(p, p.claimed, board, scope) == p.current
  {
    var keep := (t: Id) => t in p.claimed || InScope(scope, t);
    if CurrentInScope(p.current, scope) {
      if p.current.None? {
        if Filter(DoingOf(board, p.name), keep) != [] {
          FirstOf(DoingOf(board, p.name), keep, Filter(DoingOf(board, p.name), keep)[0]);
          DoingIsCredited(p, Filter(DoingOf(board, p.name), keep)[0], board, scope);
        }
      } else if p.current.value !in p.claimed {
        DoingIsCredited(p, p.current.value, board, scope);
      }
    }
  }

  lemma DoingIsCredited(p: Projection, t: Id, board: Board, scope: Scope)
    requires DistinctIds(board) && Settled(p, board, scope) && t in DoingOf(board, p.name) && InScope(scope, t)
    ensures t in p.claimed && p.current.Some?
  {
    DoingIsFound(board, p.name, t);
    var card := Find(board, t).value;
    assert Counts(card, p.name, scope);
  }

  lemma SettledStays(p: Projection, board: Board, scope: Scope)
    requires DistinctIds(board) && Settled(p, board, scope)
    ensures Settle(p, board, scope) == p
    ensures forall c :: c in board && Counts(c, p.name, scope) ==> Credit(p, c, board, scope) == p
  {
    FilterAll(p.claimed, Keeps(p, board, scope));
    FilterAll(p.completed, StaysCompleted(board, scope));
    DedupeKeeps(p.claimed);
    SettledCurrentStays(p, board, scope);
    forall c | c in board && Counts(c, p.name, scope) ensures Credit(p, c, board, scope) == p {
      FindIs(board, c);
      RemoveFirstDrops(p.completed, c.id);
      assert Credited(p, c, board);
    }
  }

  lemma {:induction false} CreditOverStays(p: Projection, n: nat, board: Board, scope: Scope)
    requires DistinctIds(board) && Settled(p, board, scope) && n <= |board|
    ensures CreditOver(p, board[..n], board, scope) == p
  {
    if n > 0 {
      CreditOverStays(p, n - 1, board, scope);
      assert board[..n][..n - 1] == board[..n - 1];
      SettledStays(p, board, scope);
    }
  }

  /** An agent the first pass leaves out has nothing to be credited with. */
  lemma UnlistedIsSettled(m: Agents, board: Board, scope: Scope, n: Id)
    requires Named(m) && DistinctIds(board)
    ensures Settled(Get(Repaired(m, board, scope), n), board, scope)
  {
    RepairSettles(m, board, scope);
    CreditsArePerAgent(SettleAll(m, board, scope), board, board, scope, n);
    if n !in Repaired(m, board, scope) {
      FreshIsTidy(n, board, scope);
      assert board[..|board|] == board;
      CreditOverSettles(Fresh(n), |board|, board, scope);
    }
  }

  /** Agents may be repaired one by one: those already done are left as they are. */
  lemma ResumeReaches(m: Agents, partial: Agents, board: Board, scope: Scope)
    requires Named(m) && DistinctIds(board)
    requires m.Keys <= partial.Keys <= Repaired(m, board, scope).Keys
    requires forall n :: n in partial ==> (n in m && partial[n] == m[n]) || partial[n] == Repaired(m, board, scope)[n]
    ensures Repaired(partial, board, scope) == Repaired(m, board, scope)
  {
    var done := Repaired(m, board, scope);
    RepairSettles(m, board, scope);
    assert Named(partial);
    forall n ensures n in Repaired(partial, board, scope) <==> n in done
             ensures Get(Repaired(partial, board, scope), n) == Get(done, n) {
      ResumeAgent(m, partial, board, scope, n);
    }
    SameAgents(Repaired(partial, board, scope), done);
  }

  lemma SameAgents(a: Agents, b: Agents)
    requires forall n :: n in a <==> n in b
    requires forall n :: Get(a, n) == Get(b, n)
    ensures a == b
  {
    forall n | n in a ensures a[n] == b[n] {
      assert Get(a, n) == a[n] && Get(b, n) == b[n];
    }
  }

  lemma ResumeAgent(m: Agents, partial: Agents, board: Board, scope: Scope, n: Id)
    requires Named(m) && Named(partial) && DistinctIds(board)
    requires m.Keys <= partial.Keys <= Repaired(m, board, scope).Keys
    requires n in partial ==> (n in m && partial[n] == m[n]) || partial[n] == Repaired(m, board, scope)[n]
    ensures n in Repaired(partial, board, scope) <==> n in Repaired(m, board, scope)
    ensures Get(Repaired(partial, board, scope), n) == Get(Repaired(m, board, scope), n)
  {
    var done := Repaired(m, board, scope);
    assert board[..|board|] == board;
    CreditsArePerAgent(SettleAll(m, board, scope), board, board, scope, n);
    CreditsArePerAgent(SettleAll(partial, board, scope), board, board, scope, n);
    if n in partial && partial[n] == done[n] {
      RepairSettles(m, board, scope);
      SettledStays(done[n], board, scope);
      CreditOverStays(done[n], |board|, board, scope);
    }
  }

  // ----- What a pass leaves alone -----

  /** Tasks no repair under `scope` may add to or drop from a completion history. */
  function Untouched(board: Board, scope: Scope): Id -> bool {
    (t: Id) => !InScope(scope, t) || Find(board, t).None?
  }

  lemma {:induction false} FilterWithin(s: seq<Id>, p: Id -> bool, q: Id -> bool)
    requires forall t :: q(t) ==> p(t)
    ensures Filter(Filter(s, p), q) == Filter(s, q)
  {
    if s != [] {
      FilterWithin(s[1..], p, q);
      var rest := Filter(s[1..], p);
      if p(s[0]) {
        assert Filter(s, p)[0] == s[0] && Filter(s, p)[1..] == rest;
      } else {
        assert Filter(s, p) == rest && Filter(s, q) == Filter(s[1..], q);
      }
    }
  }

  lemma {:induction false} FilterRemoved(s: seq<Id>, t: Id, keep: Id -> bool)
    requires !keep(t)
    ensures Filter(RemoveFirst(s, t), keep) == Filter(s, keep)
  {
    if s != [] && s[0] != t {
      FilterRemoved(s[1..], t, keep);
      assert RemoveFirst(s, t)[1..] == RemoveFirst(s[1..], t);
    }
  }

  /** The two loops neither drop, add nor reorder untouched completions. */
  lemma {:induction false} CompletionsAreKept(p: Projection, n: nat, board: Board, scope: Scope)
    requires n <= |board|
    ensures Filter(CreditOver(p, board[..n], board, scope).completed, Untouched(board, scope))
            == Filter(p.completed, Untouched(board, scope))
  {
    if n > 0 {
      CompletionsAreKept(p, n - 1, board, scope);
      assert board[..n][..n - 1] == board[..n - 1];
      var q, card := CreditOver(p, board[..n - 1], board, scope), board[n - 1];
      assert CreditOver(p, board[..n], board, scope)
             == if Counts(card, p.name, scope) then Credit(q, card, board, scope) else q;
      if Counts(card, p.name, scope) { CreditKeepsCompletions(q, card, board, scope); }
    }
  }

  lemma CreditKeepsCompletions(q: Projection, card: BoardCard, board: Board, scope: Scope)
    requires InScope(scope, card.id) && card in board
    ensures Filter(Credit(q, card, board, scope).completed, Untouched(board, scope))
            == Filter(q.completed, Untouched(board, scope))
  {
    assert !Untouched(board, scope)(card.id);
    FilterSnoc(q.completed, card.id, Untouched(board, scope));
    FilterRemoved(q.completed, card.id, Untouched(board, scope));
  }

  /** Crediting adds claims of in-scope cards the agent owns, and only those. */
  lemma {:induction false} ClaimsAfterCredit(p: Projection, n: nat, board: Board, scope: Scope, t: Id)
    requires n <= |board|
    ensures t in CreditOver(p, board[..n], board, scope).claimed
            <==> (t in p.claimed
                  || exists c :: c in board[..n] && Counts(c, p.name, scope) && Active(c.status) && c.id == t)
  {
    if n > 0 {
      ClaimsAfterCredit(p, n - 1, board, scope, t);
      var card := board[n - 1];
      assert board[..n][..n - 1] == board[..n - 1] && board[..n] == board[..n - 1] + [card];
    }
  }

  /** An agent's claims after a pass: what was kept and what was credited. */
  lemma ClaimsAfter(m: Agents, board: Board, scope: Scope, n: Id, t: Id)
    requires Named(m)
    ensures t in Get(Repaired(m, board, scope), n).claimed
            <==> ((n in m && t in m[n].claimed && Keeps(m[n], board, scope)(t))
                  || exists c :: c in board && Counts(c, n, scope) && Active(c.status) && c.id == t)
  {
    var settled := SettleAll(m, board, scope);
    CreditsArePerAgent(settled, board, board, scope, n);
    assert board[..|board|] == board;
    ClaimsAfterCredit(Get(settled, n), |board|, board, scope, t);
    if n in m {
      DedupeKeeps(Filter(m[n].claimed, Keeps(m[n], board, scope)));
      FilterMember(m[n].claimed, Keeps(m[n], board, scope), t);
    }
  }

  /**
    Out-of-scope claims and completions stay as they were, the history of missing
    cards is kept, and an agent in no file gains only in-scope cards it owns.
  */
  lemma RepairIsFramed(m: Agents, board: Board, scope: Scope, n: Id)
    requires Named(m)
    ensures var was, now := Get(m, n), Get(Repaired(m, board, scope), n);
            && (forall t :: !InScope(scope, t) ==> (t in now.claimed <==> t in was.claimed))
            && Filter(now.completed, Untouched(board, scope)) == Filter(was.completed, Untouched(board, scope))
            && (forall t :: Untouched(board, scope)(t) ==> (t in now.completed <==> t in was.completed))
  {
    var settled := SettleAll(m, board, scope);
    var was, now := Get(m, n), Get(Repaired(m, board, scope), n);
    var untouched := Untouched(board, scope);
    forall t | !InScope(scope, t) ensures t in now.claimed <==> t in was.claimed {
      ClaimsAfter(m, board, scope, n, t);
    }
    CreditsArePerAgent(settled, board, board, scope, n);
    assert board[..|board|] == board;
    CompletionsAreKept(Get(settled, n), |board|, board, scope);
    if n in m { FilterWithin(m[n].completed, StaysCompleted(board, scope), untouched); }
    forall t | untouched(t) ensures t in now.completed <==> t in was.completed {
      FilterMember(now.completed, untouched, t);
      FilterMember(was.completed, untouched, t);
    }
  }

  // ----- When the audit is clean afterwards -----

  predicate Ownerless(card: BoardCard, scope: Scope) {
    InScope(scope, card.id) && !Truthy(card.owner) && Active(card.status)
  }

  /** Two agents claim one in-scope card that is active and has no owner. */
  ghost predicate SharedOwnerless(m: Agents, board: Board, scope: Scope) {
    exists c :: c in board && Ownerless(c, scope) && ClaimedByTwo(m, c.id)
  }

  /** The owner of every in-scope active card has a name whose file is read back. */
  predicate OwnersLoadable(board: Board, scope: Scope) {
    forall c :: c in board && InScope(scope, c.id) && Truthy(c.owner) && Active(c.status) ==> Loadable(c.owner.value)
  }

  /** What the next reader finds after a pass. */
  function AfterPass(m: Agents, board: Board, scope: Scope): Agents {
    Loaded(Repaired(m, board, scope))
  }

  lemma SettledAgentIsClean(p: Projection, board: Board, scope: Scope, i: Issue)
    requires DistinctIds(board) && Settled(p, board, scope) && AgentFlag(p, board, scope, i)
    ensures i.OrphanClaim? && p.active && i.task in p.claimed && Find(board, i.task).None?
  {
    if i.CurrentNotClaimed? { DoingIsCredited(p, i.task, board, scope); }
    if i.task in p.claimed { assert Keeps(p, board, scope)(i.task); }
    if i.task in p.completed { assert StaysCompleted(board, scope)(i.task); }
  }

  lemma TwoClaimants(m: Agents, board: Board, scope: Scope, a: Id, b: Id, t: Id)
    requires Named(m) && DistinctIds(board) && InScope(scope, t) && a != b
    requires t in Get(Repaired(m, board, scope), a).claimed && t in Get(Repaired(m, board, scope), b).claimed
    ensures ActiveOrphan(m, board, scope) || SharedOwnerless(m, board, scope)
  {
    ClaimsAfter(m, board, scope, a, t);
    ClaimsAfter(m, board, scope, b, t);
    forall c | c in board && c.id == t ensures Find(board, t) == Some(c) { FindIs(board, c); }
    if Find(board, t).Some? {
      var c := Find(board, t).value;
      assert !Truthy(c.owner) && Active(c.status);
      assert Ownerless(c, scope);
      assert t in m[a].claimed && t in m[b].claimed;
      assert ClaimedByTwo(m, t);
    }
  }

  /** Where its file is read back, an owner ends up claiming its cards and reporting a doing one. */
  lemma OwnerIsServed(m: Agents, board: Board, scope: Scope, card: BoardCard)
    requires Named(m) && DistinctIds(board) && OwnersLoadable(board, scope)
    requires card in board && InScope(scope, card.id) && Truthy(card.owner) && Active(card.status)
    ensures var now, a := AfterPass(m, board, scope), card.owner.value;
            && !LacksClaim(now, a, card.id)
            && (card.status == Doing ==> now[a].current.Some? && now[a].current.value in DoingOf(board, a))
  {
    var a := card.owner.value;
    UnlistedIsSettled(m, board, scope, a);
    RepairSettles(m, board, scope);
    var p := Get(Repaired(m, board, scope), a);
    assert Counts(card, p.name, scope) && Credited(p, card, board);
  }

  lemma BoardFlagHasCause(m: Agents, board: Board, scope: Scope, i: Issue)
    requires Named(m) && DistinctIds(board) && OwnersLoadable(board, scope)
    requires BoardFlag(AfterPass(m, board, scope), board, scope, i)
    ensures ActiveOrphan(m, board, scope) || SharedOwnerless(m, board, scope)
  {
    var now := AfterPass(m, board, scope);
    if i.MultipleClaimants? {
      var a, b :| a in now && b in now && a != b && i.task in now[a].claimed && i.task in now[b].claimed;
      TwoClaimants(m, board, scope, a, b, i.task);
    } else if i.OwnerClaimMissing? {
      OwnerIsServed(m, board, scope, Find(board, i.task).value);
    } else {
      FilterMember(DoingOf(board, i.agent), InScopeOf(scope), i.task);
      DoingIsFound(board, i.agent, i.task);
      OwnerIsServed(m, board, scope, Find(board, i.task).value);
    }
  }

  lemma OrphanHasCause(m: Agents, board: Board, scope: Scope, n: Id, t: Id)
    requires Named(m) && n in Repaired(m, board, scope) && Repaired(m, board, scope)[n].active
    requires t in Repaired(m, board, scope)[n].claimed && Find(board, t).None? && InScope(scope, t)
    ensures ActiveOrphan(m, board, scope)
  {
    ClaimsAfter(m, board, scope, n, t);
    CreditsArePerAgent(SettleAll(m, board, scope), board, board, scope, n);
    CreditKeepsName(Get(SettleAll(m, board, scope), n), board, board, scope);
  }

  lemma FlagHasCause(m: Agents, board: Board, scope: Scope, i: Issue)
    requires Named(m) && DistinctIds(board) && OwnersLoadable(board, scope)
    requires Flagged(AfterPass(m, board, scope), board, scope, i)
    ensures ActiveOrphan(m, board, scope) || SharedOwnerless(m, board, scope)
  {
    var now := AfterPass(m, board, scope);
    if BoardFlag(now, board, scope, i) {
      BoardFlagHasCause(m, board, scope, i);
    } else {
      var n :| n in now && AgentFlag(now[n], board, scope, i);
      RepairSettles(m, board, scope);
      SettledAgentIsClean(now[n], board, scope, i);
      OrphanHasCause(m, board, scope, n, i.task);
    }
  }

  lemma OrphanStays(m: Agents, board: Board, scope: Scope)
    requires Named(m) && Loaded(m) == m && ActiveOrphan(m, board, scope)
    ensures !Clean(AfterPass(m, board, scope), board, scope)
  {
    var n, t :| n in m && t in m[n].claimed && m[n].active && InScope(scope, t) && Find(board, t).None?;
    KeptClaimIsRead(m, board, scope, n, t);
    var now := AfterPass(m, board, scope);
    assert AgentFlag(now[n], board, scope, OrphanClaim(t, n));
    assert Flagged(now, board, scope, OrphanClaim(t, n));
  }

  lemma KeptClaimIsRead(m: Agents, board: Board, scope: Scope, n: Id, t: Id)
    requires Named(m) && Loaded(m) == m && n in m && t in m[n].claimed && Keeps(m[n], board, scope)(t)
    ensures var now := AfterPass(m, board, scope); n in now && now[n].name == n && t in now[n].claimed
  {
    ClaimsAfter(m, board, scope, n, t);
    CreditsArePerAgent(SettleAll(m, board, scope), board, board, scope, n);
    assert n in Loaded(m);
  }

  lemma SharedStays(m: Agents, board: Board, scope: Scope)
    requires Named(m) && DistinctIds(board) && Loaded(m) == m && SharedOwnerless(m, board, scope)
    ensures !Clean(AfterPass(m, board, scope), board, scope)
  {
    var c :| c in board && Ownerless(c, scope) && ClaimedByTwo(m, c.id);
    var a, b :| a in m && b in m && a != b && c.id in m[a].claimed && c.id in m[b].claimed;
    FindIs(board, c);
    KeptClaimIsRead(m, board, scope, a, c.id);
    KeptClaimIsRead(m, board, scope, b, c.id);
    TwoClaimsAreFlagged(AfterPass(m, board, scope), board, scope, a, b, c.id);
  }

  lemma TwoClaimsAreFlagged(m: Agents, board: Board, scope: Scope, a: Id, b: Id, t: Id)
    requires a in m && b in m && a != b && t in m[a].claimed && t in m[b].claimed && InScope(scope, t)
    ensures !Clean(m, board, scope)
  {
    assert ClaimedByTwo(m, t);
    assert Flagged(m, board, scope, MultipleClaimants(t));
  }

  lemma UnloadableStays(m: Agents, board: Board, scope: Scope)
    requires DistinctIds(board) && !OwnersLoadable(board, scope)
    ensures !Clean(AfterPass(m, board, scope), board, scope)
  {
    var c :| c in board && InScope(scope, c.id) && Truthy(c.owner) && Active(c.status) && !Loadable(c.owner.value);
    FindIs(board, c);
    var now := AfterPass(m, board, scope);
    assert BoardFlag(now, board, scope, OwnerClaimMissing(c.id, c.owner.value));
    assert Flagged(now, board, scope, OwnerClaimMissing(c.id, c.owner.value));
  }

  /**
    One pass leaves the audit clean exactly when no active agent holds an in-scope
    orphan claim, no two agents claim one ownerless active card, and the owners of
    active cards have names whose files are read back.
  */
  lemma RepairConvergesExactly(m: Agents, board: Board, scope: Scope)
    requires Named(m) && DistinctIds(board) && Loaded(m) == m
    ensures Clean(AfterPass(m, board, scope), board, scope)
            <==> (!ActiveOrphan(m, board, scope) && !SharedOwnerless(m, board, scope) && OwnersLoadable(board, scope))
  {
    if ActiveOrphan(m, board, scope) {
      OrphanStays(m, board, scope);
    } else if SharedOwnerless(m, board, scope) {
      SharedStays(m, board, scope);
    } else if !OwnersLoadable(board, scope) {
      UnloadableStays(m, board, scope);
    } else {
      forall i | Flagged(AfterPass(m, board, scope), board, scope, i) ensures false {
        FlagHasCause(m, board, scope, i);
      }
    }
  }

  // ----- A second pass -----

  /** A second pass changes no projection at any point of either loop. */
  ghost predicate StagesNothing(m: Agents, board: Board, scope: Scope) {
    && SettleAll(m, board, scope) == m
    && (forall k :: 0 <= k <= |board| ==> CreditAll(m, board[..k], board, scope) == m)
  }

  /** Every in-scope owner that a pass writes a file for has a name that is read back. */
  predicate CreditedLoadable(board: Board, scope: Scope) {
    forall c :: c in board && InScope(scope, c.id) && Truthy(c.owner) && c.status != Backlog ==> Loadable(c.owner.value)
  }

  /** An owner named in no file is written for as soon as it has a card to be credited with. */
  lemma OwnerIsWritten(m: Agents, board: Board, scope: Scope, c: BoardCard)
    requires Named(m) && DistinctIds(board) && c in board && InScope(scope, c.id)
    requires Truthy(c.owner) && c.status != Backlog
    ensures c.owner.value in Repaired(m, board, scope)
  {
    UnlistedIsSettled(m, board, scope, c.owner.value);
    RepairSettles(m, board, scope);
    var p := Get(Repaired(m, board, scope), c.owner.value);
    assert Counts(c, p.name, scope) && Credited(p, c, board);
  }

  lemma {:induction false} WrittenHasCard(p: Projection, n: nat, board: Board, scope: Scope) returns (c: BoardCard)
    requires n <= |board| && CreditOver(p, board[..n], board, scope) != p
    ensures c in board && Counts(c, p.name, scope) && c.status != Backlog
  {
    assert n > 0;
    assert board[..n][..n - 1] == board[..n - 1];
    if CreditOver(p, board[..n - 1], board, scope) != p {
      c := WrittenHasCard(p, n - 1, board, scope);
    } else {
      c := board[n - 1];
    }
  }

  lemma AllAreRead(m: Agents, board: Board, scope: Scope)
    requires Named(m) && DistinctIds(board) && Loaded(m) == m && CreditedLoadable(board, scope)
    ensures AfterPass(m, board, scope) == Repaired(m, board, scope)
  {
    forall n | n in Repaired(m, board, scope) ensures Loadable(n) {
      if n in m {
        assert n in Loaded(m);
      } else {
        CreditsArePerAgent(SettleAll(m, board, scope), board, board, scope, n);
        assert board[..|board|] == board;
        var c := WrittenHasCard(Fresh(n), |board|, board, scope);
      }
    }
  }

  lemma SettledCreditsNothing(m: Agents, board: Board, scope: Scope, k: nat)
    requires Named(m) && DistinctIds(board) && k <= |board|
    requires forall n :: Settled(Get(m, n), board, scope)
    ensures CreditAll(m, board[..k], board, scope) == m
  {
    var r := CreditAll(m, board[..k], board, scope);
    forall n ensures n in r <==> n in m ensures Get(r, n) == Get(m, n) {
      CreditsArePerAgent(m, board[..k], board, scope, n);
      CreditOverStays(Get(m, n), k, board, scope);
    }
    SameAgents(r, m);
  }

  lemma SettledStageNothing(m: Agents, board: Board, scope: Scope)
    requires Named(m) && DistinctIds(board)
    requires forall n :: Settled(Get(m, n), board, scope)
    ensures StagesNothing(m, board, scope)
  {
    forall n | n in m ensures Settle(m[n], board, scope) == m[n] {
      SettledStays(Get(m, n), board, scope);
    }
    forall k | 0 <= k <= |board| ensures CreditAll(m, board[..k], board, scope) == m {
      SettledCreditsNothing(m, board, scope, k);
    }
  }

  /**
    A second pass stages nothing exactly when every owner it wrote a file for is
    read back. This holds whether or not the first pass left the audit clean.
  */
  lemma SecondPassStagesNothingExactly(m: Agents, board: Board, scope: Scope)
    requires Named(m) && DistinctIds(board) && Loaded(m) == m
    ensures StagesNothing(AfterPass(m, board, scope), board, scope) <==> CreditedLoadable(board, scope)
  {
    var now := AfterPass(m, board, scope);
    RepairSettles(m, board, scope);
    if CreditedLoadable(board, scope) {
      AllAreRead(m, board, scope);
      forall n ensures Settled(Get(now, n), board, scope) { UnlistedIsSettled(m, board, scope, n); }
      SettledStageNothing(now, board, scope);
    } else {
      var c :| c in board && InScope(scope, c.id) && Truthy(c.owner) && c.status != Backlog && !Loadable(c.owner.value);
      OwnerIsWritten(now, board, scope, c);
      assert board[..|board|] == board;
    }
  }

  // ----- Two ways past the gate that do not converge -----

  /** An ownerless active card claimed by at most one active agent, alone on the board, stops no repair. */
  lemma OwnerlessStopsNothing(m: Agents, card: BoardCard)
    requires !Truthy(card.owner) && Active(card.status)
    requires forall n, t :: n in m && t in m[n].claimed ==> t == card.id
    requires forall a, b :: a in m && b in m && m[a].active && m[b].active ==> a == b
    ensures !ActiveConflict(m, [card], None)
  {
    assert Find([card], card.id) == Some(card);
  }

  /** One active and one stale claimant of an ownerless card: no conflict, and no clean audit. */
  lemma SharedPassesTheGate(card: BoardCard, m: Agents, a: Id, b: Id)
    requires !Truthy(card.owner) && Active(card.status) && a != b && Loadable(a) && Loadable(b)
    requires m == map[a := Projection(a, true, None, [card.id], []), b := Projection(b, false, None, [card.id], [])]
    ensures !ActiveConflict(m, [card], None) && !Clean(AfterPass(m, [card], None), [card], None)
  {
    OwnerlessStopsNothing(m, card);
    assert card in [card] && Ownerless(card, None);
    assert card.id in m[a].claimed && card.id in m[b].claimed;
    assert ClaimedByTwo(m, card.id);
    RepairConvergesExactly(m, [card], None);
  }

  /** The name Syncthing gives a conflict copy of the file of `stem`. */
  function ConflictName(stem: Id, day: string, time: string, device: string): Id {
    stem + CONFLICT_MARK + day + "-" + time + "-" + device
  }

  lemma ConflictMarkIsThere(stem: Id, day: string, time: string, device: string)
    requires |day| == 8 && |time| == 6 && AllOf(day, Digit) && AllOf(time, Digit)
    requires device != "" && AllOf(device, AlphaNum)
    ensures ConflictCopy(ConflictName(stem, day, time, device))
  {
    var name, i := ConflictName(stem, day, time, device), |stem|;
    assert name[i..i + 15] == CONFLICT_MARK;
    assert name[i + 15..i + 23] == day;
    assert name[i + 24..i + 30] == time;
    assert name[i + 31..] == device && name[i + 31..|name|] == device;
    assert ConflictMarkAt(name, i, |name|);
  }

  /** An agent whose name, legal or not, reads like a conflict copy: its claim is never seen. */
  lemma ConflictNameNeverConverges(card: BoardCard, stem: Id, day: string, time: string, device: string)
    requires |day| == 8 && |time| == 6 && AllOf(day, Digit) && AllOf(time, Digit)
    requires device != "" && AllOf(device, AlphaNum)
    requires card.owner == Some(ConflictName(stem, day, time, device)) && Active(card.status)
    ensures !ActiveConflict(map[], [card], None) && !Clean(AfterPass(map[], [card], None), [card], None)
  {
    ConflictMarkIsThere(stem, day, time, device);
    assert card in [card];
    UnloadableStays(map[], [card], None);
  }

  /** Such a name is canonical whenever its stem is and it is not too long. */
  lemma ConflictNameIsCanonical(stem: Id, day: string, time: string, device: string)
    requires |day| == 8 && |time| == 6 && AllOf(day, Digit) && AllOf(time, Digit)
    requires device != "" && AllOf(device, AlphaNum) && Canonical(stem) && |stem| + 31 + |device| <= 128
    ensures Canonical(ConflictName(stem, day, time, device))
  {
    var name := ConflictName(stem, day, time, device);
    var legal := (c: char) => AlphaNum(c) || c in "_.-";
    AllOfConcat(stem, CONFLICT_MARK, legal);
    AllOfConcat(stem + CONFLICT_MARK, day, legal);
    AllOfConcat(stem + CONFLICT_MARK + day, "-", legal);
    AllOfConcat(stem + CONFLICT_MARK + day + "-", time, legal);
    AllOfConcat(stem + CONFLICT_MARK + day + "-" + time, "-", legal);
    AllOfConcat(stem + CONFLICT_MARK + day + "-" + time + "-", device, legal);
    assert name[0] == stem[0] && name[|name| - 1] == device[|device| - 1];
  }

  lemma AllOfConcat(a: string, b: string, p: char -> bool)
    requires AllOf(a, p) && AllOf(b, p)
    ensures AllOf(a + b, p)
  {
  }
}
