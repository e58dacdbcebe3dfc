/**
  Running a lifecycle repair against files and receipts (`lifecycle.py`): the intent
  that goes before every save, the receipt that ends it, the rollback, and what a
  kill between any two durable writes leaves for the next repair.
*/
module RepairReceipts {
  import opened Ordering
  import opened Wrappers
  import opened CardFold
  import opened LifecycleAudit
  import opened LifecycleRepair
  import opened RepairPass

  datatype Phase = Intent | Committed | RolledBack | Recovered | LegacyCommitted

  /** One receipt line. Intents and recoveries carry the scope of the repair. */
  datatype Entry = Entry(id: Id, phase: Phase, scope: Scope)

  /** Every agent file, read back or not, and every writer's receipts. */
  datatype World = World(files: Agents, log: seq<Entry>)

  // ----- Unresolved intents -----

  predicate Ended(log: seq<Entry>, id: Id) {
    exists e :: e in log && e.id == id && e.phase != Intent
  }

  /** A repair began under `id` with `scope`, and nothing says how it ended. */
  predicate Unresolved(log: seq<Entry>, id: Id, scope: Scope) {
    Entry(id, Intent, scope) in log && !Ended(log, id)
  }

  /** No id has intents of two scopes. */
  predicate Consistent(log: seq<Entry>) {
    forall e, f :: e in log && f in log && e.id == f.id && e.phase == Intent && f.phase == Intent ==> e.scope == f.scope
  }

  predicate Known(log: seq<Entry>, id: Id) {
    exists e :: e in log && e.id == id
  }

  /** A repair of `scope` also reconciles one of `other`. */
  predicate Covers(scope: Scope, other: Scope) {
    scope.None? || (other.Some? && other.value <= scope.value)
  }

  // ----- Durable writes -----

  datatype Write =
    | Append(entry: Entry)
    | Save(p: Projection)
    | Restore(name: Id, original: Option<Projection>)

  function Perform(w: World, s: Write): World {
    match s
    case Append(e) => w.(log := w.log + [e])
    case Save(p) => w.(files := w.files[p.name := p])
    case Restore(name, original) =>
      w.(files := if original.Some? then w.files[name := original.value] else w.files - {name})
  }

  function PerformAll(w: World, writes: seq<Write>): World
    decreases |writes|
  {
    if writes == [] then w else PerformAll(Perform(w, writes[0]), writes[1..])
  }

  /** One call of the repair, killed after `kill` writes if it lasts that long. */
  datatype Attempt = Attempt(id: Id, saves: seq<Projection>, recovers: seq<(Id, Scope)>, kill: nat)

  const SAVE: Projection -> Write := (p: Projection) => Save(p)
  const RECOVER: ((Id, Scope)) -> Write := (u: (Id, Scope)) => Append(Entry(u.0, Recovered, u.1))

  function Original(files: Agents, name: Id): Option<Projection> {
    if name in files then Some(files[name]) else None
  }

  /** `_restore_projections`: the last touched first. */
  function Restores(files: Agents, saves: seq<Projection>): seq<Write> {
    if saves == [] then []
    else
      var last := saves[|saves| - 1];
      [Restore(last.name, Original(files, last.name))] + Restores(files, saves[..|saves| - 1])
  }

  /** What stops the repair before its first write. */
  ghost predicate Refuses(w: World, board: Board, scope: Scope) {
    || !Consistent(w.log) || ActiveConflict(Loaded(w.files), board, scope)
    || exists c :: c in board && Nameless(c, scope, Loaded(w.files).Keys)
  }

  function Begins(a: Attempt, scope: Scope): seq<Write> {
    [Append(Entry(a.id, Intent, scope))] + MapAll(a.saves, SAVE)
  }

  /** The writes after the saves: a receipt and the recoveries, or the rollback. */
  ghost function Ends(w: World, a: Attempt, board: Board, scope: Scope): seq<Write> {
    if Clean(Loaded(PerformAll(w, Begins(a, scope)).files), board, scope) then
      [Append(Entry(a.id, Committed, None))] + MapAll(a.recovers, RECOVER)
    else Restores(w.files, a.saves) + [Append(Entry(a.id, RolledBack, None))]
  }

  ghost function Writes(w: World, a: Attempt, board: Board, scope: Scope): seq<Write> {
    if Refuses(w, board, scope) then [] else Begins(a, scope) + Ends(w, a, board, scope)
  }

  ghost function Step(w: World, a: Attempt, board: Board, scope: Scope): World {
    var writes := Writes(w, a, board, scope);
    PerformAll(w, if a.kill < |writes| then writes[..a.kill] else writes)
  }

  predicate Names(saves: seq<Projection>, n: Id) {
    exists p :: p in saves && p.name == n
  }

  /** `saves` lists new projections from `now`, and every agent that is not as it was. */
  ghost predicate Lists(saves: seq<Projection>, was: Agents, now: Agents) {
    && (forall p :: p in saves ==> p.name in now && now[p.name] == p)
    && (forall n :: n in now ==> (n in was && was[n] == now[n]) || Names(saves, n))
  }

  /** An attempt takes a new id, saves what its pass stages, and recovers what it covers. */
  ghost predicate Legit(w: World, a: Attempt, board: Board, scope: Scope) {
    var loaded := Loaded(w.files);
    && !Known(w.log, a.id) && Lists(a.saves, loaded, Repaired(loaded, board, scope))
    && (forall u :: u in a.recovers <==> Unresolved(w.log, u.0, u.1) && Covers(scope, u.1))
  }

  // ----- Sequences of writes -----

  lemma {:induction false} PerformConcat(w: World, a: seq<Write>, b: seq<Write>)
    ensures PerformAll(w, a + b) == PerformAll(PerformAll(w, a), b)
    decreases |a|
  {
    if a == [] {
      assert a + b == b;
    } else {
      assert (a + b)[1..] == a[1..] + b;
      PerformConcat(Perform(w, a[0]), a[1..], b);
    }
  }

  lemma {:induction false} LogGrows(w: World, writes: seq<Write>)
    ensures w.log <= PerformAll(w, writes).log
    decreases |writes|
  {
    if writes != [] { LogGrows(Perform(w, writes[0]), writes[1..]); }
  }

  /** Saving: every listed agent gets its new projection, no other file changes. */
  lemma {:induction false} SavesApplied(w: World, saves: seq<Projection>, now: Agents)
    requires forall p :: p in saves ==> p.name in now && now[p.name] == p
    ensures var r := PerformAll(w, MapAll(saves, SAVE));
            && r.log == w.log
            && (forall n :: n in r.files <==> n in w.files || Names(saves, n))
            && (forall n :: n in r.files ==> r.files[n] == if Names(saves, n) then now[n] else w.files[n])
    decreases |saves|
  {
    if saves != [] {
      var rest := saves[1..];
      assert saves == [saves[0]] + rest;
      assert MapAll(saves, SAVE)[1..] == MapAll(rest, SAVE);
      SavesApplied(Perform(w, Save(saves[0])), rest, now);
      assert forall n :: Names(saves, n) <==> n == saves[0].name || Names(rest, n);
    }
  }

  /** Restoring: every listed agent gets its original file back, or loses the one it was given. */
  lemma {:induction false} RestoresApplied(w: World, files: Agents, saves: seq<Projection>)
    ensures var r := PerformAll(w, Restores(files, saves));
            && r.log == w.log
            && (forall n :: Original(r.files, n) == Original(if Names(saves, n) then files else w.files, n))
    decreases |saves|
  {
    if saves != [] {
      var front, last := saves[..|saves| - 1], saves[|saves| - 1];
      assert saves == front + [last];
      var first := Restore(last.name, Original(files, last.name));
      assert Restores(files, saves)[1..] == Restores(files, front);
      RestoresApplied(Perform(w, first), files, front);
      assert forall n :: Names(saves, n) <==> n == last.name || Names(front, n);
    }
  }

  // ----- Every run leaves each file as it was or as repaired -----

  /** Each file is the original or the repaired one, and no original is lost. */
  ghost predicate Between(orig: Agents, target: Agents, files: Agents) {
    && orig.Keys <= files.Keys
    && (forall n :: n in files ==> (n in orig && files[n] == orig[n]) || (n in target && files[n] == target[n]))
  }

  ghost predicate Safe(orig: Agents, target: Agents, s: Write) {
    match s
    case Append(_) => true
    case Save(p) => p.name in target && target[p.name] == p
    case Restore(n, o) =>
      if o.None? then n !in orig
      else (n in orig && o.value == orig[n]) || (n in target && o.value == target[n])
  }

  lemma {:induction false} SafeKeeps(orig: Agents, target: Agents, w: World, writes: seq<Write>)
    requires Between(orig, target, w.files) && forall s :: s in writes ==> Safe(orig, target, s)
    ensures Between(orig, target, PerformAll(w, writes).files)
    decreases |writes|
  {
    if writes != [] {
      assert Safe(orig, target, writes[0]);
      SafeKeeps(orig, target, Perform(w, writes[0]), writes[1..]);
    }
  }

  lemma {:induction false} RestoresAreSafe(orig: Agents, target: Agents, files: Agents, saves: seq<Projection>)
    requires Between(orig, target, files)
    ensures forall s :: s in Restores(files, saves) ==> Safe(orig, target, s)
    decreases |saves|
  {
    if saves != [] { RestoresAreSafe(orig, target, files, saves[..|saves| - 1]); }
  }

  /** Repairing what an interrupted repair left comes to the same. */
  lemma RepairFromBetween(orig: Agents, files: Agents, board: Board, scope: Scope)
    requires Named(orig) && DistinctIds(board)
    requires Between(orig, Repaired(Loaded(orig), board, scope), files)
    ensures Named(files) && Repaired(Loaded(files), board, scope) == Repaired(Loaded(orig), board, scope)
  {
    var m, partial := Loaded(orig), Loaded(files);
    RepairSettles(m, board, scope);
    forall n | n in m ensures n in Repaired(m, board, scope) {
      CreditsArePerAgent(SettleAll(m, board, scope), board, board, scope, n);
    }
    ResumeReaches(m, partial, board, scope);
  }

  lemma StepIsSafe(orig: Agents, w: World, a: Attempt, board: Board, scope: Scope)
    requires Named(orig) && DistinctIds(board) && Legit(w, a, board, scope)
    requires Between(orig, Repaired(Loaded(orig), board, scope), w.files)
    ensures forall s :: s in Writes(w, a, board, scope) ==> Safe(orig, Repaired(Loaded(orig), board, scope), s)
  {
    var target := Repaired(Loaded(orig), board, scope);
    RepairFromBetween(orig, w.files, board, scope);
    RestoresAreSafe(orig, target, w.files, a.saves);
    forall s | s in Begins(a, scope) ensures Safe(orig, target, s) {
      if s in MapAll(a.saves, SAVE) {
        var k :| 0 <= k < |a.saves| && MapAll(a.saves, SAVE)[k] == s;
        assert a.saves[k] in a.saves;
      }
    }
    forall s | s in MapAll(a.recovers, RECOVER) ensures s.Append? {
      var k :| 0 <= k < |a.recovers| && MapAll(a.recovers, RECOVER)[k] == s;
    }
  }

  ghost predicate LegitRun(w: World, run: seq<Attempt>, board: Board, scope: Scope)
    decreases |run|
  {
    run == [] || (Legit(w, run[0], board, scope) && LegitRun(Step(w, run[0], board, scope), run[1..], board, scope))
  }

  ghost function Run(w: World, run: seq<Attempt>, board: Board, scope: Scope): World
    decreases |run|
  {
    if run == [] then w else Run(Step(w, run[0], board, scope), run[1..], board, scope)
  }

  /** Over any run of repairs, finished, rolled back or killed, no file is ever anything else. */
  lemma {:induction false} RunKeepsBetween(orig: Agents, w: World, run: seq<Attempt>, board: Board, scope: Scope)
    requires Named(orig) && DistinctIds(board) && LegitRun(w, run, board, scope)
    requires Between(orig, Repaired(Loaded(orig), board, scope), w.files)
    ensures Between(orig, Repaired(Loaded(orig), board, scope), Run(w, run, board, scope).files)
    decreases |run|
  {
    if run != [] {
      var a, target := run[0], Repaired(Loaded(orig), board, scope);
      var writes := Writes(w, a, board, scope);
      StepIsSafe(orig, w, a, board, scope);
      SafeKeeps(orig, target, w, if a.kill < |writes| then writes[..a.kill] else writes);
      RunKeepsBetween(orig, Step(w, a, board, scope), run[1..], board, scope);
    }
  }

  // ----- A repair that runs to its end -----

  lemma BeginsApplied(w: World, a: Attempt, scope: Scope, now: Agents)
    requires forall p :: p in a.saves ==> p.name in now && now[p.name] == p
    ensures var r := PerformAll(w, Begins(a, scope));
            && r.log == w.log + [Entry(a.id, Intent, scope)]
            && (forall n :: n in r.files <==> n in w.files || Names(a.saves, n))
            && (forall n :: n in r.files ==> r.files[n] == if Names(a.saves, n) then now[n] else w.files[n])
  {
    var intent := Append(Entry(a.id, Intent, scope));
    assert Begins(a, scope)[1..] == MapAll(a.saves, SAVE);
    SavesApplied(Perform(w, intent), a.saves, now);
  }

  lemma SavedFiles(files: Agents, saves: seq<Projection>, now: Agents, saved: Agents)
    requires Loaded(files).Keys <= now.Keys && Lists(saves, Loaded(files), now)
    requires forall n :: n in saved <==> n in files || Names(saves, n)
    requires forall n :: n in saved ==> saved[n] == if Names(saves, n) then now[n] else files[n]
    ensures Loaded(saved) == Loaded(now)
  {
    var r, s := Loaded(saved), Loaded(now);
    forall n ensures n in r <==> n in s {
      assert n in Loaded(files) <==> n in files && Loadable(n);
    }
    forall n | n in r ensures r[n] == s[n] {
      if !Names(saves, n) { assert n in Loaded(files) && Loaded(files)[n] == files[n]; }
    }
  }

  /** Once everything is saved, the next reader finds the pass complete. */
  lemma SavedIsAfterPass(w: World, a: Attempt, board: Board, scope: Scope)
    requires Legit(w, a, board, scope) && Named(w.files)
    ensures Loaded(PerformAll(w, Begins(a, scope)).files) == AfterPass(Loaded(w.files), board, scope)
  {
    var loaded := Loaded(w.files);
    var now := Repaired(loaded, board, scope);
    BeginsApplied(w, a, scope, now);
    KnownAreRepaired(loaded, board, scope);
    SavedFiles(w.files, a.saves, now, PerformAll(w, Begins(a, scope)).files);
  }

  lemma KnownAreRepaired(m: Agents, board: Board, scope: Scope)
    requires Named(m)
    ensures m.Keys <= Repaired(m, board, scope).Keys
  {
    forall n | n in m ensures n in Repaired(m, board, scope) {
      CreditsArePerAgent(SettleAll(m, board, scope), board, board, scope, n);
    }
  }

  lemma {:induction false} RecoversApplied(w: World, recovers: seq<(Id, Scope)>)
    ensures var r := PerformAll(w, MapAll(recovers, RECOVER));
            && r.files == w.files
            && (forall e :: e in r.log <==> e in w.log || (e.phase == Recovered && (e.id, e.scope) in recovers))
    decreases |recovers|
  {
    if recovers != [] {
      var first := RECOVER(recovers[0]);
      assert MapAll(recovers, RECOVER)[1..] == MapAll(recovers[1..], RECOVER);
      assert recovers == [recovers[0]] + recovers[1..];
      RecoversApplied(Perform(w, first), recovers[1..]);
    }
  }

  /** The repair was not refused and not killed. */
  ghost predicate RunsOut(w: World, a: Attempt, board: Board, scope: Scope) {
    !Refuses(w, board, scope) && a.kill >= |Writes(w, a, board, scope)|
  }

  lemma CommitApplied(w: World, a: Attempt, board: Board, scope: Scope)
    requires Legit(w, a, board, scope) && Named(w.files) && RunsOut(w, a, board, scope)
    requires Clean(AfterPass(Loaded(w.files), board, scope), board, scope)
    ensures var end := Step(w, a, board, scope);
            && end.files == PerformAll(w, Begins(a, scope)).files
            && (forall e :: e in end.log <==>
                  || e in w.log || e == Entry(a.id, Intent, scope) || e == Entry(a.id, Committed, None)
                  || (e.phase == Recovered && (e.id, e.scope) in a.recovers))
  {
    BeginsApplied(w, a, scope, Repaired(Loaded(w.files), board, scope));
    CommitStep(w, a, board, scope);
    EndsInCommit(PerformAll(w, Begins(a, scope)), a);
  }

  lemma CommitStep(w: World, a: Attempt, board: Board, scope: Scope)
    requires Legit(w, a, board, scope) && Named(w.files) && RunsOut(w, a, board, scope)
    requires Clean(AfterPass(Loaded(w.files), board, scope), board, scope)
    ensures Step(w, a, board, scope)
            == PerformAll(PerformAll(w, Begins(a, scope)),
                          [Append(Entry(a.id, Committed, None))] + MapAll(a.recovers, RECOVER))
  {
    SavedIsAfterPass(w, a, board, scope);
    PerformConcat(w, Begins(a, scope), Ends(w, a, board, scope));
  }

  lemma EndsInCommit(begun: World, a: Attempt)
    ensures var end := PerformAll(begun, [Append(Entry(a.id, Committed, None))] + MapAll(a.recovers, RECOVER));
            && end.files == begun.files
            && (forall e :: e in end.log <==>
                  || e in begun.log || e == Entry(a.id, Committed, None)
                  || (e.phase == Recovered && (e.id, e.scope) in a.recovers))
  {
    var commit := Append(Entry(a.id, Committed, None));
    var writes := [commit] + MapAll(a.recovers, RECOVER);
    assert writes[0] == commit && writes[1..] == MapAll(a.recovers, RECOVER);
    RecoversApplied(Perform(begun, commit), a.recovers);
  }

  lemma OneScope(log: seq<Entry>, id: Id, s: Scope, t: Scope)
    requires Consistent(log) && Entry(id, Intent, s) in log && Entry(id, Intent, t) in log
    ensures s == t
  {
    var e, f := Entry(id, Intent, s), Entry(id, Intent, t);
    assert e.scope == f.scope;
  }

  /**
    A repair that commits leaves a clean audit, and leaves unresolved exactly the
    earlier intents that its scope does not cover.
  */
  lemma CommitResolvesExactly(w: World, a: Attempt, board: Board, scope: Scope, id: Id, other: Scope)
    requires Legit(w, a, board, scope) && Named(w.files) && RunsOut(w, a, board, scope)
    requires Clean(AfterPass(Loaded(w.files), board, scope), board, scope)
    ensures var end := Step(w, a, board, scope);
            && Loaded(end.files) == AfterPass(Loaded(w.files), board, scope)
            && (Unresolved(end.log, id, other)
                <==> Unresolved(w.log, id, other) && scope.Some? && (other.Some? ==> !(other.value <= scope.value)))
  {
    var end := Step(w, a, board, scope);
    CommitApplied(w, a, board, scope);
    SavedIsAfterPass(w, a, board, scope);
    if id == a.id {
      assert Entry(id, Committed, None) in end.log;
    } else if Unresolved(w.log, id, other) {
      if Covers(scope, other) {
        assert (id, other) in a.recovers;
        assert Entry(id, Recovered, other) in end.log;
      } else {
        forall e | e in a.recovers ensures e.0 != id {
          if e.0 == id { OneScope(w.log, id, e.1, other); }
        }
        assert forall e :: e in end.log && e.id == id ==> e in w.log;
      }
    }
  }

  /** A repair whose audit is not clean puts every file back and says that it did. */
  lemma RollbackRestoresExactly(w: World, a: Attempt, board: Board, scope: Scope, id: Id, other: Scope)
    requires Legit(w, a, board, scope) && Named(w.files) && RunsOut(w, a, board, scope)
    requires !Clean(AfterPass(Loaded(w.files), board, scope), board, scope)
    ensures var end := Step(w, a, board, scope);
            && end.files == w.files
            && end.log == w.log + [Entry(a.id, Intent, scope), Entry(a.id, RolledBack, None)]
            && (Unresolved(end.log, id, other) <==> Unresolved(w.log, id, other))
  {
    SavedIsAfterPass(w, a, board, scope);
    var begun := PerformAll(w, Begins(a, scope));
    var undo := Append(Entry(a.id, RolledBack, None));
    BeginsApplied(w, a, scope, Repaired(Loaded(w.files), board, scope));
    PerformConcat(w, Begins(a, scope), Ends(w, a, board, scope));
    PerformConcat(begun, Restores(w.files, a.saves), [undo]);
    RestoresApplied(begun, w.files, a.saves);
    var restored := PerformAll(begun, Restores(w.files, a.saves));
    forall n ensures Original(restored.files, n) == Original(w.files, n) {
      assert Original(restored.files, n) == Original(if Names(a.saves, n) then w.files else begun.files, n);
    }
    SameFiles(restored.files, w.files);
    var end := Step(w, a, board, scope);
    assert [undo][1..] == [];
    assert end == Perform(restored, undo);
    assert end.log == w.log + [Entry(a.id, Intent, scope), Entry(a.id, RolledBack, None)];
    if id == a.id { assert Entry(id, RolledBack, None) in end.log; }
  }

  lemma SameFiles(a: Agents, b: Agents)
    requires forall n :: Original(a, n) == Original(b, n)
    ensures a == b
  {
    forall n ensures n in a <==> n in b {
      assert Original(a, n) == Original(b, n);
    }
    forall n | n in a ensures a[n] == b[n] {
      assert Original(a, n) == Original(b, n);
    }
  }

  /** A file is never changed unless the intent of the repair is on record. */
  lemma NoChangeWithoutIntent(w: World, a: Attempt, board: Board, scope: Scope)
    requires Step(w, a, board, scope).files != w.files
    ensures Entry(a.id, Intent, scope) in Step(w, a, board, scope).log
  {
    var writes := Writes(w, a, board, scope);
    var done := if a.kill < |writes| then writes[..a.kill] else writes;
    var intent := Entry(a.id, Intent, scope);
    if done != [] {
      assert done[0] == Append(intent);
      LogGrows(Perform(w, done[0]), done[1..]);
      assert (w.log + [intent])[|w.log|] == intent;
    }
  }

  // ----- A killed repair can always be repeated, and is then resolved -----

  predicate Owed(board: Board, scope: Scope, n: Id, t: Id) {
    Find(board, t).Some? && Counts(Find(board, t).value, n, scope) && Active(Find(board, t).value.status)
  }

  /** An active claim, at any point of a repair, was there before or is owed to the owner. */
  lemma ClaimHasCause(m: Agents, partial: Agents, board: Board, scope: Scope, n: Id, t: Id)
    requires Named(m) && DistinctIds(board) && Between(m, Repaired(m, board, scope), partial)
    requires n in partial && t in partial[n].claimed && partial[n].active
    ensures (n in m && t in m[n].claimed && m[n].active) || Owed(board, scope, n, t)
  {
    ClaimsAfter(m, board, scope, n, t);
    CreditsArePerAgent(SettleAll(m, board, scope), board, board, scope, n);
    CreditKeepsName(Get(SettleAll(m, board, scope), n), board, board, scope);
    forall c | c in board && c.id == t ensures Find(board, t) == Some(c) { FindIs(board, c); }
  }

  lemma PairHasCause(m: Agents, partial: Agents, board: Board, scope: Scope, a: Id, b: Id, t: Id)
    requires Named(m) && DistinctIds(board) && Between(m, Repaired(m, board, scope), partial)
    requires a in partial && b in partial && a != b && InScope(scope, t)
    requires t in partial[a].claimed && partial[a].active && t in partial[b].claimed && partial[b].active
    ensures ActiveConflict(m, board, scope)
  {
    ClaimHasCause(m, partial, board, scope, a, t);
    ClaimHasCause(m, partial, board, scope, b, t);
    if Owed(board, scope, a, t) {
      OtherIsNonOwner(m, board, scope, a, b, t);
    } else if Owed(board, scope, b, t) {
      OtherIsNonOwner(m, board, scope, b, a, t);
    } else {
      assert ActivePair(m, scope);
    }
  }

  lemma OtherIsNonOwner(m: Agents, board: Board, scope: Scope, owner: Id, other: Id, t: Id)
    requires Owed(board, scope, owner, t) && owner != other && InScope(scope, t)
    requires (other in m && t in m[other].claimed && m[other].active) || Owed(board, scope, other, t)
    ensures ActiveNonOwner(m, board, scope)
  {
    assert NotOwner(board, t, other);
  }

  lemma ClaimStopsNothing(m: Agents, board: Board, scope: Scope, n: Id, t: Id)
    requires !ActiveConflict(m, board, scope) && InScope(scope, t)
    requires (n in m && t in m[n].claimed && m[n].active) || Owed(board, scope, n, t)
    ensures Find(board, t).Some? && !NotOwner(board, t, n)
  {
    if !Owed(board, scope, n, t) {
      assert Find(board, t).None? ==> ActiveOrphan(m, board, scope);
      assert NotOwner(board, t, n) ==> ActiveNonOwner(m, board, scope);
    }
  }

  /** What stops no repair stops none of its repetitions. */
  lemma GateStays(m: Agents, partial: Agents, board: Board, scope: Scope)
    requires Named(m) && DistinctIds(board) && Between(m, Repaired(m, board, scope), partial)
    requires !ActiveConflict(m, board, scope)
    ensures !ActiveConflict(partial, board, scope)
  {
    forall n, t | n in partial && t in partial[n].claimed && partial[n].active && InScope(scope, t)
      ensures Find(board, t).Some? && !NotOwner(board, t, n)
    {
      ClaimHasCause(m, partial, board, scope, n, t);
      ClaimStopsNothing(m, board, scope, n, t);
    }
    if ActivePair(partial, scope) {
      var a, b, t :| a in partial && b in partial && a != b && InScope(scope, t)
                     && t in partial[a].claimed && partial[a].active && t in partial[b].claimed && partial[b].active;
      PairHasCause(m, partial, board, scope, a, b, t);
    }
  }

  lemma BetweenLoaded(orig: Agents, files: Agents, board: Board, scope: Scope)
    requires Named(orig) && Between(orig, Repaired(Loaded(orig), board, scope), files)
    ensures Between(Loaded(orig), Repaired(Loaded(orig), board, scope), Loaded(files))
  {
  }

  // ----- The receipts of a run -----

  /** One scope to an id, whatever an attempt appends. */
  lemma {:induction false} ConsistentStays(w: World, a: Attempt, writes: seq<Write>, scope: Scope)
    requires Consistent(w.log) && forall e :: e in w.log && e.id == a.id && e.phase == Intent ==> e.scope == scope
    requires forall s :: s in writes && s.Append? && s.entry.phase == Intent ==> s.entry == Entry(a.id, Intent, scope)
    ensures Consistent(PerformAll(w, writes).log)
    decreases |writes|
  {
    if writes != [] {
      assert writes[0] in writes;
      ConsistentStays(Perform(w, writes[0]), a, writes[1..], scope);
    }
  }

  lemma {:induction false} RestoresAppendNothing(files: Agents, saves: seq<Projection>)
    ensures forall s :: s in Restores(files, saves) ==> s.Restore?
    decreases |saves|
  {
    if saves != [] { RestoresAppendNothing(files, saves[..|saves| - 1]); }
  }

  /** The one intent an attempt writes is its own. */
  lemma IntentWritten(w: World, a: Attempt, board: Board, scope: Scope, s: Write)
    requires s in Writes(w, a, board, scope) && s.Append? && s.entry.phase == Intent
    ensures s.entry == Entry(a.id, Intent, scope)
  {
    RestoresAppendNothing(w.files, a.saves);
    assert forall r :: r in MapAll(a.recovers, RECOVER) ==> r.Append? && r.entry.phase == Recovered;
    assert forall r :: r in MapAll(a.saves, SAVE) ==> r.Save?;
    assert s in Begins(a, scope) || s in Ends(w, a, board, scope);
  }

  lemma StepStaysConsistent(w: World, a: Attempt, board: Board, scope: Scope)
    requires Consistent(w.log) && Legit(w, a, board, scope)
    ensures Consistent(Step(w, a, board, scope).log)
  {
    var writes := Writes(w, a, board, scope);
    forall s | s in writes && s.Append? && s.entry.phase == Intent ensures s.entry == Entry(a.id, Intent, scope) {
      IntentWritten(w, a, board, scope, s);
    }
    ConsistentStays(w, a, if a.kill < |writes| then writes[..a.kill] else writes, scope);
  }

  lemma {:induction false} RunStaysConsistent(w: World, run: seq<Attempt>, board: Board, scope: Scope)
    requires Consistent(w.log) && LegitRun(w, run, board, scope)
    ensures Consistent(Run(w, run, board, scope).log)
    decreases |run|
  {
    if run != [] {
      StepStaysConsistent(w, run[0], board, scope);
      RunStaysConsistent(Step(w, run[0], board, scope), run[1..], board, scope);
    }
  }

  /**
    After any run of repairs killed anywhere, one more is not refused, and if it
    runs out it leaves the agents of one uninterrupted pass and no unresolved intent
    that its scope covers.
  */
  lemma KilledRepairsRecover(
    w: World, run: seq<Attempt>, last: Attempt, board: Board, scope: Scope, id: Id, other: Scope)
    requires Named(w.files) && DistinctIds(board) && !Refuses(w, board, scope) && LegitRun(w, run, board, scope)
    requires Clean(AfterPass(Loaded(w.files), board, scope), board, scope)
    ensures var now := Run(w, run, board, scope);
            && !Refuses(now, board, scope)
            && (Legit(now, last, board, scope) && RunsOut(now, last, board, scope) ==>
                  var end := Step(now, last, board, scope);
                  && Loaded(end.files) == AfterPass(Loaded(w.files), board, scope)
                  && (Unresolved(end.log, id, other) <==> Unresolved(now.log, id, other) && !Covers(scope, other)))
  {
    var now := Run(w, run, board, scope);
    RunKeepsBetween(w.files, w, run, board, scope);
    RunStaysConsistent(w, run, board, scope);
    RepairFromBetween(w.files, now.files, board, scope);
    BetweenLoaded(w.files, now.files, board, scope);
    GateStays(Loaded(w.files), Loaded(now.files), board, scope);
    assert forall c :: c in board && Nameless(c, scope, Loaded(now.files).Keys) ==>
             Nameless(c, scope, Loaded(w.files).Keys);
    if Legit(now, last, board, scope) && RunsOut(now, last, board, scope) {
      CommitResolvesExactly(now, last, board, scope, id, other);
    }
  }
}
