/**
  `lifecycle._repair_lifecycle_unlocked` from start to end, one durable write at a
  time, over the agent files and the receipt log it changes.
*/
module LifecycleStore {
  import Ordering
  import opened Sequences
  import opened Wrappers
  import opened LifecycleAudit
  import opened LifecycleRepair
  import opened RepairPass
  import opened RepairReceipts

  /** `_unresolved_receipt_ids`: the intents no receipt ends, or a failure when scopes disagree. */
  method UnresolvedReceipts(log: seq<Entry>) returns (r: Option<map<Id, Scope>>)
    ensures r.None? <==> !Consistent(log)
    ensures r.Some? ==> forall id, s :: id in r.value && r.value[id] == s <==> Unresolved(log, id, s)
  {
    var scopes: map<Id, Scope> := map[];
    var ended: set<Id> := {};
    for k := 0 to |log|
      invariant forall id, s :: id in scopes && scopes[id] == s <==> Entry(id, Intent, s) in log[..k]
      invariant forall id :: id in ended <==> Ended(log[..k], id)
    {
      var e := log[k];
      assert log[..k + 1] == log[..k] + [e];
      if e.phase == Intent {
        if e.id in scopes && scopes[e.id] != e.scope {
          assert Entry(e.id, Intent, scopes[e.id]) in log[..k];
          return None;
        }
        scopes := scopes[e.id := e.scope];
      } else {
        ended := ended + {e.id};
      }
    }
    assert log[..|log|] == log;
    r := Some(map id | id in scopes && id !in ended :: scopes[id]);
    forall e, f | e in log && f in log && e.id == f.id && e.phase == Intent && f.phase == Intent
      ensures e.scope == f.scope
    {
      assert e == Entry(e.id, Intent, e.scope) && f == Entry(e.id, Intent, f.scope);
    }
  }

  /** `load_agents`: one object for each file that is read back. */
  method LoadAgents(files: Agents) returns (names: seq<Id>, agents: map<Id, AgentFile>)
    requires Named(files)
    ensures Indexed(agents) && Distinct(names) && forall n :: n in names <==> n in agents
    ensures Views(agents) == Loaded(files) && forall n :: n in agents ==> fresh(agents[n])
  {
    names, agents := [], map[];
    var todo := Loaded(files).Keys;
    while todo != {}
      invariant todo <= Loaded(files).Keys
      invariant Indexed(agents) && Distinct(names) && forall n :: n in names <==> n in agents
      invariant agents.Keys == Loaded(files).Keys - todo
      invariant forall n :: n in agents ==> fresh(agents[n]) && agents[n].View() == files[n]
    {
      var name :| name in todo;
      var agent := new AgentFile(files[name]);
      names, agents, todo := names + [name], agents[name := agent], todo - {name};
    }
  }

  /** The staged projections as a list. */
  method ListPending(pending: Agents) returns (saves: seq<Projection>)
    requires Named(pending)
    ensures forall p :: p in saves <==> p.name in pending && pending[p.name] == p
  {
    saves := [];
    var todo := pending.Keys;
    while todo != {}
      invariant todo <= pending.Keys
      invariant forall p :: p in saves <==> p.name in pending.Keys - todo && pending[p.name] == p
    {
      var name :| name in todo;
      saves, todo := saves + [pending[name]], todo - {name};
    }
  }

  /** The unresolved intents that a repair of `scope` also reconciles. */
  method ListRecovers(log: seq<Entry>, unresolved: map<Id, Scope>, scope: Scope) returns (recovers: seq<(Id, Scope)>)
    requires forall id, s :: id in unresolved && unresolved[id] == s <==> Unresolved(log, id, s)
    ensures forall u :: u in recovers <==> Unresolved(log, u.0, u.1) && Covers(scope, u.1)
  {
    recovers := [];
    var todo := unresolved.Keys;
    while todo != {}
      invariant todo <= unresolved.Keys
      invariant forall u :: u in recovers <==>
                  u.0 in unresolved.Keys - todo && unresolved[u.0] == u.1 && Covers(scope, u.1)
    {
      var id :| id in todo;
      if Covers(scope, unresolved[id]) { recovers := recovers + [(id, unresolved[id])]; }
      todo := todo - {id};
    }
  }

  datatype Outcome = Repaired | RolledBackToStart | Refused | Killed

  class Store {
    var files: Agents
    var log: seq<Entry>

    function View(): World
      reads this
    {
      World(files, log)
    }

    constructor (w: World)
      ensures View() == w
    {
      files, log := w.files, w.log;
    }

    method Put(s: Write)
      modifies this
      ensures View() == Perform(old(View()), s)
    {
      if s.Append? {
        log := log + [s.entry];
      } else if s.Save? {
        files := files[s.p.name := s.p];
      } else if s.original.Some? {
        files := files[s.name := s.original.value];
      } else {
        files := files - {s.name};
      }
    }

    /** Performs `writes` in order, stopping for good after `kill` of them. */
    method PutAll(writes: seq<Write>, kill: nat) returns (finished: bool)
      modifies this
      ensures finished <==> |writes| <= kill
      ensures View() == PerformAll(old(View()), if kill < |writes| then writes[..kill] else writes)
    {
      var k := 0;
      while k < |writes| && k < kill
        invariant 0 <= k <= |writes| && k <= kill
        invariant View() == PerformAll(old(View()), writes[..k])
      {
        PerformConcat(old(View()), writes[..k], [writes[k]]);
        assert writes[..k + 1] == writes[..k] + [writes[k]] && [writes[k]][1..] == [];
        Put(writes[k]);
        k := k + 1;
      }
      finished := k == |writes|;
      assert finished ==> writes[..k] == writes;
    }

    /** An audit, and whether its findings let the repair go on. */
    method GateFiles(board: Board, scope: Scope) returns (ok: bool)
      requires Named(files) && DistinctIds(board)
      ensures ok <==> !ActiveConflict(Loaded(files), board, scope)
    {
      var names, agents := LoadAgents(files);
      var issues := Audit(names, Loaded(files), board, scope);
      ok := AssertNoActiveConflicts(Loaded(files), board, scope, issues);
    }

    /** Everything before the first write: the receipts, the audit, the gate and the loops. */
    method Prepare(board: Board, scope: Scope) returns (plan: Option<(seq<Projection>, seq<(Id, Scope)>)>)
      requires Named(files) && DistinctIds(board)
      ensures plan.None? <==> Refuses(View(), board, scope)
      ensures plan.Some? ==> Lists(plan.value.0, Loaded(files), LifecycleRepair.Repaired(Loaded(files), board, scope))
      ensures plan.Some? ==>
                forall u :: u in plan.value.1 <==> Unresolved(log, u.0, u.1) && Covers(scope, u.1)
    {
      var unresolved := UnresolvedReceipts(log);
      if unresolved.None? { return None; }
      var ok := GateFiles(board, scope);
      if !ok { return None; }
      var names, agents := LoadAgents(files);
      var saves := PlanSaves(names, agents, board, scope);
      if saves.None? { return None; }
      var recovers := ListRecovers(log, unresolved.value, scope);
      plan := Some((saves.value, recovers));
    }

    /** Whether a fresh audit of the files finds nothing. */
    method AuditFiles(board: Board, scope: Scope) returns (clean: bool)
      requires Named(files) && DistinctIds(board)
      ensures clean <==> Clean(Loaded(files), board, scope)
    {
      var names, agents := LoadAgents(files);
      var issues := Audit(names, Loaded(files), board, scope);
      clean := issues == [];
    }

    /** The writes of a planned repair: the intent, the saves, an audit, and how it ends. */
    method Carry(ghost a: Attempt, id: Id, saves: seq<Projection>, recovers: seq<(Id, Scope)>, board: Board,
                 scope: Scope, kill: nat)
      returns (outcome: Outcome)
      requires a == Attempt(id, saves, recovers, kill) && Named(files) && DistinctIds(board)
      requires !Refuses(View(), board, scope) && Legit(View(), a, board, scope)
      modifies this
      ensures View() == Step(old(View()), a, board, scope)
      ensures outcome != Refused && (outcome == Killed <==> kill < |Writes(old(View()), a, board, scope)|)
      ensures outcome != Killed ==>
                outcome == if Clean(AfterPass(Loaded(old(files)), board, scope), board, scope) then Repaired
                           else RolledBackToStart
    {
      ghost var w := View();
      var original := files;
      var begins := Begins(Attempt(id, saves, recovers, kill), scope);
      BegunIs(w, a, board, scope);
      var begun := PutAll(begins, kill);
      if !begun { return Killed; }
      var clean := AuditFiles(board, scope);
      var ending := if clean then [Append(Entry(id, Committed, None))] + Ordering.MapAll(recovers, RECOVER)
                    else Restores(original, saves) + [Append(Entry(id, RolledBack, None))];
      PrefixConcat(w, begins, ending, kill);
      var ended := PutAll(ending, kill - |begins|);
      outcome := if !ended then Killed else if clean then Repaired else RolledBackToStart;
    }

    /** `_repair_lifecycle_unlocked`, killed after `kill` durable writes if it lasts that long. */
    method Repair(id: Id, board: Board, scope: Scope, kill: nat) returns (outcome: Outcome, ghost a: Attempt)
      requires Named(files) && DistinctIds(board) && !Known(log, id)
      modifies this
      ensures outcome == Refused <==> Refuses(old(View()), board, scope)
      ensures outcome == Refused ==> View() == old(View())
      ensures outcome != Refused ==>
                && a.id == id && a.kill == kill && Legit(old(View()), a, board, scope)
                && View() == Step(old(View()), a, board, scope)
                && (outcome == Killed <==> kill < |Writes(old(View()), a, board, scope)|)
      ensures outcome == Repaired ==> Clean(AfterPass(Loaded(old(files)), board, scope), board, scope)
      ensures outcome == RolledBackToStart ==> !Clean(AfterPass(Loaded(old(files)), board, scope), board, scope)
    {
      var plan := Prepare(board, scope);
      if plan.None? {
        a := Attempt(id, [], [], kill);
        return Refused, a;
      }
      a := Attempt(id, plan.value.0, plan.value.1, kill);
      outcome := Carry(a, id, plan.value.0, plan.value.1, board, scope, kill);
    }
  }

  /** The loops over the loaded agents, and the projections they staged. */
  method PlanSaves(names: seq<Id>, agents: map<Id, AgentFile>, board: Board, scope: Scope)
    returns (saves: Option<seq<Projection>>)
    requires Indexed(agents) && DistinctIds(board) && Distinct(names) && forall n :: n in names <==> n in agents
    modifies agents.Values
    ensures saves.None? <==> exists c :: c in board && Nameless(c, scope, agents.Keys)
    ensures saves.Some? ==>
              Lists(saves.value, old(Views(agents)), LifecycleRepair.Repaired(old(Views(agents)), board, scope))
  {
    ghost var was := Views(agents);
    var loops, pending := RunLoops(names, agents, board, scope);
    if loops.Failure? { return None; }
    RepairSettles(was, board, scope);
    var listed := ListStaged(was, LifecycleRepair.Repaired(was, board, scope), pending);
    saves := Some(listed);
  }

  method ListStaged(ghost was: Agents, ghost now: Agents, pending: Agents) returns (saves: seq<Projection>)
    requires Named(now) && Stages(was, now, pending)
    ensures Lists(saves, was, now)
  {
    saves := ListPending(pending);
    StagedAreListed(saves, pending, was, now);
  }

  lemma StagedAreListed(saves: seq<Projection>, pending: Agents, was: Agents, now: Agents)
    requires Named(now) && Stages(was, now, pending)
    requires forall p :: p in saves <==> p.name in pending && pending[p.name] == p
    ensures Lists(saves, was, now)
  {
    forall n | n in now && n !in was ensures Names(saves, n) {
      assert pending[n] in saves;
    }
    forall n | n in now && n in was && was[n] != now[n] ensures Names(saves, n) {
      assert pending[n] in saves;
    }
  }

  /** How a planned repair begins, and what a kill before its audit leaves. */
  lemma BegunIs(w: World, a: Attempt, board: Board, scope: Scope)
    requires !Refuses(w, board, scope) && Legit(w, a, board, scope) && Named(w.files) && DistinctIds(board)
    ensures a.kill < |Begins(a, scope)| ==> Step(w, a, board, scope) == PerformAll(w, Begins(a, scope)[..a.kill])
    ensures var begun := PerformAll(w, Begins(a, scope));
            Named(begun.files) && Loaded(begun.files) == AfterPass(Loaded(w.files), board, scope)
  {
    if a.kill < |Begins(a, scope)| {
      assert Writes(w, a, board, scope)[..a.kill] == Begins(a, scope)[..a.kill];
    }
    RepairSettles(Loaded(w.files), board, scope);
    BeginsApplied(w, a, scope, LifecycleRepair.Repaired(Loaded(w.files), board, scope));
    SavedIsAfterPass(w, a, board, scope);
  }

  /** Stopping part-way through two lists in a row. */
  lemma PrefixConcat(w: World, a: seq<Write>, b: seq<Write>, kill: nat)
    requires |a| <= kill
    ensures PerformAll(w, if kill < |a + b| then (a + b)[..kill] else a + b)
            == PerformAll(PerformAll(w, a), if kill - |a| < |b| then b[..kill - |a|] else b)
  {
    var rest := if kill - |a| < |b| then b[..kill - |a|] else b;
    assert (if kill < |a + b| then (a + b)[..kill] else a + b) == a + rest;
    PerformConcat(w, a, rest);
  }
}
