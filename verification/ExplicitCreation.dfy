/**
  Creation of a card under a caller-supplied id (`create_explicit`): a pending
  intent, the core and an attempt ledger are written one after the other, and a
  kill may fall between any two durable writes. Every host appends to a ledger of
  its own. Semantic digests are modelled by the semantics they digest.
*/
module ExplicitCreation {
  import opened Text
  import opened Wrappers

  datatype Core = Core(semantics: string, createdAt: string)
  datatype Pending = Pending(digest: string, semantics: string)
  datatype Verdict = Accepted | Rejected

  /** A ledger record. Rejections reserved without a core have no semantics. */
  datatype Attempt = Attempt(digest: string, semantics: Option<string>, verdict: Verdict, reason: string)

  /** What is durable for one card id: hosts are numbered in the order of their ledgers' file names. */
  datatype Disk = Disk(core: Option<Core>, pending: Option<Pending>, ledgers: seq<seq<Attempt>>)

  datatype Request = Request(core: Core, digest: string)

  // ----- One ledger a host -----

  /** `_read_creation_attempts`: the ledgers one after the other. */
  function Flatten(ledgers: seq<seq<Attempt>>): seq<Attempt> {
    if ledgers == [] then [] else ledgers[0] + Flatten(ledgers[1..])
  }

  /** One more line for a host; a ledger that is not there yet is an empty one. */
  function AppendTo(ledgers: seq<seq<Attempt>>, host: nat, a: Attempt): seq<seq<Attempt>>
    decreases host
  {
    var first := if ledgers == [] then [] else ledgers[0];
    var rest := if ledgers == [] then [] else ledgers[1..];
    if host == 0 then [first + [a]] + rest else [first] + AppendTo(rest, host - 1, a)
  }

  /** The lines read before a host's next line. */
  function UpTo(ledgers: seq<seq<Attempt>>, host: nat): seq<Attempt> {
    if ledgers == [] then [] else ledgers[0] + if host == 0 then [] else UpTo(ledgers[1..], host - 1)
  }

  /** The lines read after everything of a host. */
  function Above(ledgers: seq<seq<Attempt>>, host: nat): seq<Attempt> {
    if ledgers == [] then [] else if host == 0 then Flatten(ledgers[1..]) else Above(ledgers[1..], host - 1)
  }

  lemma {:induction false} AppendPlaces(ledgers: seq<seq<Attempt>>, host: nat, a: Attempt)
    ensures Flatten(ledgers) == UpTo(ledgers, host) + Above(ledgers, host)
    ensures Flatten(AppendTo(ledgers, host, a)) == UpTo(ledgers, host) + [a] + Above(ledgers, host)
    decreases host
  {
    var first := if ledgers == [] then [] else ledgers[0];
    var rest := if ledgers == [] then [] else ledgers[1..];
    assert Flatten(ledgers) == first + Flatten(rest);
    var more := AppendTo(ledgers, host, a);
    if host == 0 {
      assert more == [first + [a]] + rest && more[1..] == rest;
      assert UpTo(ledgers, 0) == first && Above(ledgers, 0) == Flatten(rest);
    } else {
      AppendPlaces(rest, host - 1, a);
      var tail := AppendTo(rest, host - 1, a);
      var x, y := UpTo(rest, host - 1), Above(rest, host - 1);
      assert more == [first] + tail && more[1..] == tail;
      assert UpTo(ledgers, host) == first + x && Above(ledgers, host) == y;
      Regroup(first, x, [a], y);
    }
  }

  lemma Regroup(a: seq<Attempt>, b: seq<Attempt>, c: seq<Attempt>, d: seq<Attempt>)
    ensures a + (b + d) == a + b + d && a + (b + c + d) == a + b + c + d
  {
  }

  // ----- Rejections that do not bind -----

  const CRASH_MARKS: seq<string> := [
    "oserror", "enospc", "disk full", "cannot be written", "cannot be cleared", "no space",
    "temporary destination is unsafe"]

  /** `_is_crash_reject_reason`: a case-insensitive search for any of the marks. */
  predicate CrashReason(reason: string) {
    exists i :: 0 <= i < |CRASH_MARKS| && Contains(Lower(reason), CRASH_MARKS[i])
  }

  predicate CrashReject(a: Attempt) {
    a.verdict == Rejected && CrashReason(a.reason)
  }

  /** The texts that make a rejection read like a crash, in any case and anywhere in the reason. */
  lemma CrashReasonExactly(reason: string)
    ensures var text := Lower(reason);
            CrashReason(reason)
            <==> Contains(text, "oserror") || Contains(text, "enospc") || Contains(text, "disk full")
                 || Contains(text, "cannot be written") || Contains(text, "cannot be cleared")
                 || Contains(text, "no space") || Contains(text, "temporary destination is unsafe")
  {
    assert CRASH_MARKS[0] == "oserror" && CRASH_MARKS[1] == "enospc" && CRASH_MARKS[2] == "disk full";
    assert CRASH_MARKS[3] == "cannot be written" && CRASH_MARKS[4] == "cannot be cleared";
    assert CRASH_MARKS[5] == "no space" && CRASH_MARKS[6] == "temporary destination is unsafe";
  }

  datatype Error = ConflictingAttempts | Reserved | CreationConflict | Policy(reason: string)

  function SkipCrashRejects(ledger: seq<Attempt>): seq<Attempt> {
    if ledger != [] && CrashReject(ledger[0]) then SkipCrashRejects(ledger[1..]) else ledger
  }

  predicate SameAttempt(a: Attempt, b: Attempt) {
    a.digest == b.digest && a.semantics == b.semantics && a.verdict == b.verdict
  }

  /** `_attempt_for`: the sole attempt that binds the id, if any. */
  function AttemptFor(ledger: seq<Attempt>): Result<Option<Attempt>, Error> {
    var matches := SkipCrashRejects(ledger);
    if matches == [] then Success(None)
    else if exists i :: 1 <= i < |matches| && !SameAttempt(matches[i], matches[0]) then Failure(ConflictingAttempts)
    else Success(Some(matches[0]))
  }

  // ----- Programs of durable writes -----

  datatype Write = PutPending(p: Pending) | PutCore(c: Core) | AppendAttempt(host: nat, a: Attempt) | ClearPending

  datatype Outcome = Created | Replayed | Ignored | Refused(why: Error) | Killed

  datatype Program = Program(writes: seq<Write>, outcome: Outcome)

  function Perform(d: Disk, w: Write): Disk {
    match w
    case PutPending(p) => d.(pending := Some(p))
    case PutCore(c) => d.(core := Some(c))
    case AppendAttempt(host, a) => d.(ledgers := AppendTo(d.ledgers, host, a))
    case ClearPending => d.(pending := None)
  }

  function PerformAll(d: Disk, ws: seq<Write>): Disk
    decreases |ws|
  {
    if ws == [] then d else PerformAll(Perform(d, ws[0]), ws[1..])
  }

  function AcceptedBy(r: Request): Attempt {
    Attempt(r.digest, Some(r.core.semantics), Accepted, "")
  }

  function RejectionOf(r: Request, reason: string): Attempt {
    Attempt(r.digest, Some(r.core.semantics), Rejected, reason)
  }

  function PendingOf(r: Request): Pending {
    Pending(r.digest, r.core.semantics)
  }

  /** The branches taken once an accepted attempt exists. */
  function ReplayAccepted(core: Option<Core>, r: Request, a: Attempt): Outcome {
    if core.None? then Refused(CreationConflict)
    else if a.semantics.Some? && core.value.semantics != a.semantics.value then Refused(CreationConflict)
    else if a.digest != r.digest then Refused(CreationConflict)
    else if core.value.semantics != r.core.semantics then Refused(CreationConflict)
    else Replayed
  }

  /** Write-ahead: the intent first, unless an earlier run left it. */
  function PublishWrites(d: Disk, host: nat, r: Request): seq<Write> {
    (if d.pending.None? then [PutPending(PendingOf(r))] else [])
    + [PutCore(r.core), AppendAttempt(host, AcceptedBy(r)), ClearPending]
  }

  /** `create_explicit`. `verdict` is the governor's refusal, if it refuses. */
  function CreateProgram(d: Disk, host: nat, r: Request, verdict: Option<string>): Program {
    match AttemptFor(Flatten(d.ledgers))
    case Failure(e) => Program([], Refused(e))
    case Success(attempt) =>
      if attempt.Some? && attempt.value.verdict == Rejected then Program([], Refused(Reserved))
      else if attempt.Some? then Program([], ReplayAccepted(d.core, r, attempt.value))
      else if d.pending.Some? && d.pending.value != PendingOf(r) then Program([], Refused(CreationConflict))
      else if d.pending.Some? && d.core.Some? then
        if d.core.value.semantics != r.core.semantics then Program([], Refused(CreationConflict))
        else Program([AppendAttempt(host, AcceptedBy(r)), ClearPending], Replayed)
      else if d.core.Some? then Program([], Refused(CreationConflict))
      else if d.pending.None? && verdict.Some? then
        Program([AppendAttempt(host, RejectionOf(r, verdict.value))], Refused(Policy(verdict.value)))
      else
        Program(PublishWrites(d, host, r), Created)
  }

  /** `reserve_explicit_rejection`. */
  function ReserveProgram(d: Disk, host: nat, digest: string, reason: string): Program {
    match AttemptFor(Flatten(d.ledgers))
    case Failure(e) => Program([], Refused(e))
    case Success(attempt) =>
      if d.core.Some? || attempt.Some? then Program([], Ignored)
      else Program([ClearPending, AppendAttempt(host, Attempt(digest, None, Rejected, reason))], Ignored)
  }

  /** `create`: an ordinary creation, which reads neither the ledgers nor the intent. */
  function OrdinaryProgram(d: Disk, core: Core, verdict: Option<string>): Program {
    if d.core.Some? then Program([], Ignored)
    else if verdict.Some? then Program([], Refused(Policy(verdict.value)))
    else Program([PutCore(core)], Created)
  }

  datatype Action =
    | Create(host: nat, r: Request, verdict: Option<string>, kill: nat)
    | Reserve(host: nat, digest: string, reason: string, kill: nat)
    | Ordinary(core: Core, verdict: Option<string>, kill: nat)

  function ProgramOf(d: Disk, a: Action): Program {
    match a
    case Create(host, r, verdict, _) => CreateProgram(d, host, r, verdict)
    case Reserve(host, digest, reason, _) => ReserveProgram(d, host, digest, reason)
    case Ordinary(core, verdict, _) => OrdinaryProgram(d, core, verdict)
  }

  /** The writes done before the process is killed after `kill` of them. */
  function Done(ws: seq<Write>, kill: nat): seq<Write> {
    if kill < |ws| then ws[..kill] else ws
  }

  function Exec(d: Disk, a: Action): Disk {
    PerformAll(d, Done(ProgramOf(d, a).writes, a.kill))
  }

  function Run(d: Disk, run: seq<Action>): Disk
    decreases |run|
  {
    if run == [] then d else Run(Exec(d, run[0]), run[1..])
  }

  const FRESH := Disk(None, None, [])

  // ----- What the ledgers say -----

  /** The records that bind the id. */
  function Binders(ledger: seq<Attempt>): seq<Attempt> {
    if ledger == [] then [] else (if CrashReject(ledger[0]) then [] else [ledger[0]]) + Binders(ledger[1..])
  }

  lemma {:induction false} BindersConcat(a: seq<Attempt>, b: seq<Attempt>)
    ensures Binders(a + b) == Binders(a) + Binders(b)
  {
    if a == [] {
      assert a + b == b;
    } else {
      assert (a + b)[1..] == a[1..] + b;
      BindersConcat(a[1..], b);
    }
  }

  lemma {:induction false} BinderIsListed(ledger: seq<Attempt>, a: Attempt)
    requires a in ledger && !CrashReject(a)
    ensures a in Binders(ledger)
  {
    if a != ledger[0] {
      BinderIsListed(ledger[1..], a);
    }
  }

  lemma {:induction false} ListedIsBinder(ledger: seq<Attempt>)
    ensures forall a :: a in Binders(ledger) ==> a in ledger && !CrashReject(a)
  {
    if ledger != [] {
      ListedIsBinder(ledger[1..]);
    }
  }

  lemma {:induction false} SkipFindsFirst(ledger: seq<Attempt>)
    ensures var matches, binders := SkipCrashRejects(ledger), Binders(ledger);
            if binders == [] then matches == [] else matches != [] && matches[0] == binders[0]
  {
    if ledger != [] {
      SkipFindsFirst(ledger[1..]);
    }
  }

  lemma {:induction false} SkipConcat(a: seq<Attempt>, b: seq<Attempt>)
    requires Binders(a) == []
    ensures SkipCrashRejects(a + b) == SkipCrashRejects(b)
  {
    if a == [] {
      assert a + b == b;
    } else {
      assert (a + b)[1..] == a[1..] + b;
      SkipConcat(a[1..], b);
    }
  }

  /** No binding record: the id is free. One: it is found, or the ledgers are in conflict. */
  lemma AttemptIsBinder(ledger: seq<Attempt>)
    ensures Binders(ledger) == [] ==> AttemptFor(ledger) == Success(None)
    ensures Binders(ledger) != [] ==>
              AttemptFor(ledger) in {Success(Some(Binders(ledger)[0])), Failure(ConflictingAttempts)}
  {
    SkipFindsFirst(ledger);
  }

  /** The only binding record is found exactly when every line read after it repeats it. */
  lemma SoleAttempt(before: seq<Attempt>, b: Attempt, after: seq<Attempt>)
    requires Binders(before) == [] && !CrashReject(b)
    ensures AttemptFor(before + [b] + after)
            == if forall a :: a in after ==>
                    a.digest == b.digest && a.semantics == b.semantics && a.verdict == b.verdict
               then Success(Some(b)) else Failure(ConflictingAttempts)
  {
    var rest := [b] + after;
    assert before + [b] + after == before + rest;
    SkipConcat(before, rest);
    assert SkipCrashRejects(rest) == rest;
    SameThroughout(b, after);
  }

  lemma SameThroughout(b: Attempt, after: seq<Attempt>)
    ensures var rest := [b] + after;
            (exists i :: 1 <= i < |rest| && !SameAttempt(rest[i], rest[0]))
            <==> !(forall i :: 0 <= i < |after| ==> SameAttempt(after[i], b))
  {
    var rest := [b] + after;
    if i :| 0 <= i < |after| && !SameAttempt(after[i], b) {
      assert rest[i + 1] == after[i];
    }
    if i :| 1 <= i < |rest| && !SameAttempt(rest[i], b) {
      assert after[i - 1] == rest[i];
    }
  }

  /** The record that binds the id. */
  function Binding(d: Disk): Option<Attempt> {
    var binders := Binders(Flatten(d.ledgers));
    if binders == [] then None else Some(binders[0])
  }

  // ----- The protocol's invariant -----

  /**
    At most one record binds. An accepted record has its core, and no intent but its
    own; a policy reject has no intent.
  */
  ghost predicate Sound(d: Disk) {
    && |Binders(Flatten(d.ledgers))| <= 1
    && (Binding(d).Some? ==>
          var a := Binding(d).value;
          if a.verdict == Accepted then
            && d.core.Some? && a.semantics == Some(d.core.value.semantics)
            && (d.pending.Some? ==> d.pending.value == Pending(a.digest, d.core.value.semantics))
          else d.pending.None?)
  }

  /** What a write needs of the disk it is made on. */
  ghost predicate Allowed(d: Disk, w: Write) {
    match w
    case PutPending(_) => Binding(d).None? && d.pending.None?
    case PutCore(_) => d.core.None?
    case AppendAttempt(_, a) =>
      && Binding(d).None?
      && if a.verdict == Accepted then
           d.core.Some? && a.semantics == Some(d.core.value.semantics)
           && d.pending == Some(Pending(a.digest, d.core.value.semantics))
         else d.pending.None?
    case ClearPending => true
  }

  ghost predicate AllAllowed(d: Disk, ws: seq<Write>)
    decreases |ws|
  {
    ws != [] ==> Allowed(d, ws[0]) && AllAllowed(Perform(d, ws[0]), ws[1..])
  }

  lemma AppendBinds(d: Disk, host: nat, a: Attempt)
    requires Binding(d).None?
    ensures Binders(Flatten(AppendTo(d.ledgers, host, a))) == if CrashReject(a) then [] else [a]
    ensures Binders(UpTo(d.ledgers, host)) == Binders(Above(d.ledgers, host)) == []
  {
    var x, y := UpTo(d.ledgers, host), Above(d.ledgers, host);
    AppendPlaces(d.ledgers, host, a);
    BindersConcat(x, y);
    BindersConcat(x + [a], y);
    BindersConcat(x, [a]);
    assert [a][1..] == [];
  }

  lemma PerformKeeps(d: Disk, w: Write)
    requires Sound(d) && Allowed(d, w)
    ensures Sound(Perform(d, w))
    ensures d.core.Some? ==> Perform(d, w).core == d.core
  {
    if w.AppendAttempt? { AppendBinds(d, w.host, w.a); }
  }

  /** Allowed writes, cut short anywhere, keep the invariant and write a core only where there is none. */
  lemma {:induction false} DoneKeeps(d: Disk, ws: seq<Write>, kill: nat)
    requires Sound(d) && AllAllowed(d, ws)
    ensures var d' := PerformAll(d, Done(ws, kill));
            && Sound(d') && (d.core.Some? ==> d'.core == d.core)
            && CoreWrites(Done(ws, kill)) == if d.core.None? && d'.core.Some? then 1 else 0
    decreases |ws|
  {
    if ws != [] && kill > 0 {
      PerformKeeps(d, ws[0]);
      DoneKeeps(Perform(d, ws[0]), ws[1..], kill - 1);
      DoneStep(d, ws, kill);
    }
  }

  lemma DoneStep(d: Disk, ws: seq<Write>, kill: nat)
    requires ws != [] && kill > 0
    ensures PerformAll(d, Done(ws, kill)) == PerformAll(Perform(d, ws[0]), Done(ws[1..], kill - 1))
    ensures CoreWrites(Done(ws, kill)) == (if ws[0].PutCore? then 1 else 0) + CoreWrites(Done(ws[1..], kill - 1))
  {
    assert Done(ws, kill)[0] == ws[0] && Done(ws, kill)[1..] == Done(ws[1..], kill - 1);
  }

  lemma PublishIsAllowed(d: Disk, host: nat, r: Request)
    requires Binding(d).None? && d.core.None? && (d.pending.Some? ==> d.pending.value == PendingOf(r))
    ensures AllAllowed(d, PublishWrites(d, host, r))
  {
    if d.pending.Some? { RestIsAllowed(d, host, r); } else {
      var begun := Perform(d, PutPending(PendingOf(r)));
      RestIsAllowed(begun, host, r);
      assert PublishWrites(d, host, r)[1..] == PublishWrites(begun, host, r);
    }
  }

  /** Once the intent is there: the core, the record, and the intent goes. */
  lemma RestIsAllowed(d: Disk, host: nat, r: Request)
    requires Binding(d).None? && d.core.None? && d.pending == Some(PendingOf(r))
    ensures AllAllowed(d, PublishWrites(d, host, r))
  {
    var ws := PublishWrites(d, host, r);
    var stored := Perform(d, PutCore(r.core));
    assert ws[1..] == [AppendAttempt(host, AcceptedBy(r)), ClearPending];
    TwoAllowed(stored, AppendAttempt(host, AcceptedBy(r)), ClearPending);
  }

  lemma TwoAllowed(d: Disk, a: Write, b: Write)
    requires Allowed(d, a) && Allowed(Perform(d, a), b)
    ensures AllAllowed(d, [a, b])
  {
    assert [a, b][1..] == [b] && [b][1..] == [];
    assert AllAllowed(Perform(d, a), [b]);
  }

  lemma OneAllowed(d: Disk, a: Write)
    requires Allowed(d, a)
    ensures AllAllowed(d, [a])
  {
    assert [a][1..] == [];
  }

  /** Every program makes only writes that the disk allows. */
  lemma ProgramIsAllowed(d: Disk, a: Action)
    requires Sound(d)
    ensures AllAllowed(d, ProgramOf(d, a).writes)
  {
    AttemptIsBinder(Flatten(d.ledgers));
    match a
    case Create(host, r, verdict, _) =>
      if Binding(d).None? { CreateIsAllowed(d, host, r, verdict); }
    case Reserve(host, digest, reason, _) =>
      if Binding(d).None? && d.core.None? {
        TwoAllowed(d, ClearPending, AppendAttempt(host, Attempt(digest, None, Rejected, reason)));
      }
    case Ordinary(core, verdict, _) =>
      if d.core.None? { OneAllowed(d, PutCore(core)); }
  }

  lemma CreateIsAllowed(d: Disk, host: nat, r: Request, verdict: Option<string>)
    requires Binding(d).None?
    ensures AllAllowed(d, CreateProgram(d, host, r, verdict).writes)
  {
    AttemptIsBinder(Flatten(d.ledgers));
    if d.core.None? {
      if d.pending.None? && verdict.Some? {
        OneAllowed(d, AppendAttempt(host, RejectionOf(r, verdict.value)));
      } else if d.pending.None? || d.pending.value == PendingOf(r) {
        PublishIsAllowed(d, host, r);
      }
    } else if d.pending == Some(PendingOf(r)) && d.core.value.semantics == r.core.semantics {
      TwoAllowed(d, AppendAttempt(host, AcceptedBy(r)), ClearPending);
    }
  }

  /** Every action, on any host and killed anywhere, keeps the invariant and an existing core. */
  lemma ExecKeeps(d: Disk, a: Action)
    requires Sound(d)
    ensures Sound(Exec(d, a))
    ensures d.core.Some? ==> Exec(d, a).core == d.core
    ensures CoreWrites(Done(ProgramOf(d, a).writes, a.kill)) == if d.core.None? && Exec(d, a).core.Some? then 1 else 0
  {
    ProgramIsAllowed(d, a);
    DoneKeeps(d, ProgramOf(d, a).writes, a.kill);
  }

  /** Once a record binds the id, only an ordinary creation can write, and only the core. */
  lemma ExecBound(d: Disk, a: Action)
    requires Binding(d).Some?
    ensures Exec(d, a) == if d.core.None? && Admits(a) then d.(core := Some(a.core)) else d
  {
    AttemptIsBinder(Flatten(d.ledgers));
    if d.core.None? && Admits(a) {
      assert [PutCore(a.core)][1..] == [];
      assert PerformAll(Perform(d, PutCore(a.core)), []) == Perform(d, PutCore(a.core));
    } else {
      assert Done(ProgramOf(d, a).writes, a.kill) == [];
    }
  }

  /** An ordinary creation that the governor lets through and that lives to write. */
  predicate Admits(a: Action) {
    a.Ordinary? && a.verdict.None? && a.kill > 0
  }

  predicate AdmitsOrdinary(run: seq<Action>) {
    exists i :: 0 <= i < |run| && Admits(run[i])
  }

  lemma {:induction false} RunKeeps(d: Disk, run: seq<Action>)
    requires Sound(d)
    ensures Sound(Run(d, run))
    ensures d.core.Some? ==> Run(d, run).core == d.core
    decreases |run|
  {
    if run != [] {
      ExecKeeps(d, run[0]);
      RunKeeps(Exec(d, run[0]), run[1..]);
    }
  }

  /** A binding record freezes ledgers and intent for good; a core comes from ordinary creations only. */
  lemma {:induction false} RunBound(d: Disk, run: seq<Action>)
    requires Binding(d).Some?
    ensures Run(d, run).ledgers == d.ledgers && Run(d, run).pending == d.pending
    ensures d.core.Some? ==> Run(d, run) == d
    ensures Run(d, run).core.Some? <==> d.core.Some? || AdmitsOrdinary(run)
    decreases |run|
  {
    if run != [] {
      ExecBound(d, run[0]);
      RunBound(Exec(d, run[0]), run[1..]);
      if i :| 0 <= i < |run| && Admits(run[i]) && i > 0 {
        assert Admits(run[1..][i - 1]);
      }
      if i :| 0 <= i < |run[1..]| && Admits(run[1..][i]) {
        assert Admits(run[i + 1]);
      }
    }
  }

  // ----- What a run can and cannot do -----

  function CoreWrites(ws: seq<Write>): nat {
    if ws == [] then 0 else (if ws[0].PutCore? then 1 else 0) + CoreWrites(ws[1..])
  }

  /** Core writes done by a whole run. */
  function CoreWritesOf(d: Disk, run: seq<Action>): nat
    decreases |run|
  {
    if run == [] then 0
    else CoreWrites(Done(ProgramOf(d, run[0]).writes, run[0].kill)) + CoreWritesOf(Exec(d, run[0]), run[1..])
  }

  /** Over any run on any hosts, with kills anywhere, the core is written at most once. */
  lemma {:induction false} CoreWrittenAtMostOnce(d: Disk, run: seq<Action>)
    requires Sound(d)
    ensures CoreWritesOf(d, run) == if d.core.None? && Run(d, run).core.Some? then 1 else 0
    decreases |run|
  {
    if run != [] {
      ExecKeeps(d, run[0]);
      CoreWrittenAtMostOnce(Exec(d, run[0]), run[1..]);
      RunKeeps(Exec(d, run[0]), run[1..]);
    }
  }

  /** An accepted record always has a core with the semantics it recorded. */
  lemma AcceptedImpliesCore(run: seq<Action>, a: Attempt)
    requires a in Flatten(Run(FRESH, run).ledgers) && a.verdict == Accepted
    ensures Run(FRESH, run).core.Some? && a.semantics == Some(Run(FRESH, run).core.value.semantics)
  {
    RunKeeps(FRESH, run);
    BinderIsListed(Flatten(Run(FRESH, run).ledgers), a);
  }

  predicate AcceptedFor(d: Disk, r: Request) {
    && Binding(d) == Some(AcceptedBy(r))
    && d.core.Some? && d.core.value.semantics == r.core.semantics
  }

  /** The disk holds this request's own progress: its intent, and perhaps its core. */
  predicate InProgress(d: Disk, r: Request) {
    d.pending == Some(PendingOf(r)) && Binding(d).None?
  }

  const UNKILLED: nat := 4

  lemma PerformUpTo4(d: Disk, ws: seq<Write>)
    requires |ws| <= 4
    ensures PerformAll(d, ws) ==
            if |ws| == 0 then d
            else if |ws| == 1 then Perform(d, ws[0])
            else if |ws| == 2 then Perform(Perform(d, ws[0]), ws[1])
            else if |ws| == 3 then Perform(Perform(Perform(d, ws[0]), ws[1]), ws[2])
            else Perform(Perform(Perform(Perform(d, ws[0]), ws[1]), ws[2]), ws[3])
  {
    if |ws| > 0 {
      var d1, t1 := Perform(d, ws[0]), ws[1..];
      assert PerformAll(d, ws) == PerformAll(d1, t1);
      if |t1| > 0 {
        var d2, t2 := Perform(d1, t1[0]), t1[1..];
        assert PerformAll(d1, t1) == PerformAll(d2, t2);
        if |t2| > 0 {
          var d3, t3 := Perform(d2, t2[0]), t2[1..];
          assert PerformAll(d2, t2) == PerformAll(d3, t3);
          if |t3| > 0 {
            assert PerformAll(d3, t3) == PerformAll(Perform(d3, t3[0]), t3[1..]);
          }
        }
      }
    }
  }

  /** What a creation leaves that runs to its end on a free id. */
  lemma CreatedDisk(d: Disk, host: nat, r: Request, verdict: Option<string>)
    requires Binding(d).None? && CreateProgram(d, host, r, verdict).outcome in {Created, Replayed}
    ensures var d' := Exec(d, Create(host, r, verdict, UNKILLED));
            && d'.ledgers == AppendTo(d.ledgers, host, AcceptedBy(r)) && d'.pending.None?
            && d'.core == (if d.core.Some? then d.core else Some(r.core))
            && AcceptedFor(d', r)
  {
    AttemptIsBinder(Flatten(d.ledgers));
    AcceptedBinds(d, host, r);
    if d.core.Some? {
      var ws := [AppendAttempt(host, AcceptedBy(r)), ClearPending];
      assert CreateProgram(d, host, r, verdict).writes == ws;
      ResumedDisk(d, host, r);
    } else {
      assert CreateProgram(d, host, r, verdict).writes == PublishWrites(d, host, r);
      PublishedDisk(d, host, r);
    }
  }

  lemma AcceptedBinds(d: Disk, host: nat, r: Request)
    requires Binding(d).None?
    ensures forall core, pending ::
              Binding(Disk(core, pending, AppendTo(d.ledgers, host, AcceptedBy(r)))) == Some(AcceptedBy(r))
  {
    AppendBinds(d, host, AcceptedBy(r));
  }

  lemma ResumedDisk(d: Disk, host: nat, r: Request)
    ensures PerformAll(d, [AppendAttempt(host, AcceptedBy(r)), ClearPending])
            == Disk(d.core, None, AppendTo(d.ledgers, host, AcceptedBy(r)))
  {
    PerformUpTo4(d, [AppendAttempt(host, AcceptedBy(r)), ClearPending]);
  }

  lemma PublishedDisk(d: Disk, host: nat, r: Request)
    ensures PerformAll(d, PublishWrites(d, host, r))
            == Disk(Some(r.core), None, AppendTo(d.ledgers, host, AcceptedBy(r)))
  {
    PerformUpTo4(d, PublishWrites(d, host, r));
  }

  /**
    Once the intent is durable, one full run of the same request, on any host and
    whatever the governor says, is accepted, exactly when no ordinary creation has put
    a core of other semantics there; in that case nothing is written.
  */
  lemma ResumeIsAcceptedExactly(d: Disk, host: nat, r: Request, verdict: Option<string>)
    requires InProgress(d, r)
    ensures var d' := Exec(d, Create(host, r, verdict, UNKILLED));
            if d.core.None? || d.core.value.semantics == r.core.semantics then
              AcceptedFor(d', r) && CreateProgram(d, host, r, verdict).outcome in {Created, Replayed}
            else
              d' == d && CreateProgram(d, host, r, verdict).outcome == Refused(CreationConflict)
  {
    AttemptIsBinder(Flatten(d.ledgers));
    if d.core.None? || d.core.value.semantics == r.core.semantics {
      CreatedDisk(d, host, r, verdict);
    }
  }

  /** The accepted record is read back exactly when later ledgers hold no line for the id. */
  lemma AcceptedIsReadExactly(ledgers: seq<seq<Attempt>>, host: nat, r: Request)
    requires Binders(Flatten(ledgers)) == []
    ensures AttemptFor(Flatten(AppendTo(ledgers, host, AcceptedBy(r))))
            == if Above(ledgers, host) == [] then Success(Some(AcceptedBy(r))) else Failure(ConflictingAttempts)
  {
    var x, y, a := UpTo(ledgers, host), Above(ledgers, host), AcceptedBy(r);
    AppendPlaces(ledgers, host, a);
    AppendBinds(Disk(None, None, ledgers), host, a);
    SoleAttempt(x, a, y);
    if y != [] {
      FirstIsRejected(y);
      assert !SameAttempt(y[0], a);
    }
  }

  lemma FirstIsRejected(ledger: seq<Attempt>)
    requires ledger != [] && Binders(ledger) == []
    ensures ledger[0].verdict == Rejected
  {
  }

  /**
    Recovery: kill an allowed creation after any number of its durable writes. If no
    intent was written nothing happened; otherwise one more run of the request, on any
    host and whatever the governor says by then, leaves it accepted. That run reports
    success exactly when the record was still missing or no later ledger holds a line.
  */
  lemma KilledCreationRecoversExactly(d: Disk, host: nat, r: Request, kill: nat, again: nat, verdict: Option<string>)
    requires Binding(d).None? && d.pending.None? && d.core.None?
    ensures var killed := Exec(d, Create(host, r, None, kill));
            if kill == 0 then killed == d
            else
              && AcceptedFor(Exec(killed, Create(again, r, verdict, UNKILLED)), r)
              && (CreateProgram(killed, again, r, verdict).outcome in {Created, Replayed}
                  <==> kill < 3 || Above(d.ledgers, host) == [])
  {
    var killed := KilledDisk(d, host, r, kill);
    if kill >= 3 {
      AcceptedIsReadExactly(d.ledgers, host, r);
      AppendBinds(d, host, AcceptedBy(r));
      ExecBound(killed, Create(again, r, verdict, UNKILLED));
    } else if kill > 0 {
      ResumeIsAcceptedExactly(killed, again, r, verdict);
    }
  }

  /** What an allowed creation leaves that is killed on a free id. */
  lemma KilledDisk(d: Disk, host: nat, r: Request, kill: nat) returns (killed: Disk)
    requires Binding(d).None? && d.pending.None? && d.core.None?
    ensures killed == Exec(d, Create(host, r, None, kill))
    ensures killed == Disk(if kill > 1 then Some(r.core) else None,
                           if 0 < kill < 4 then Some(PendingOf(r)) else None,
                           if kill > 2 then AppendTo(d.ledgers, host, AcceptedBy(r)) else d.ledgers)
  {
    AttemptIsBinder(Flatten(d.ledgers));
    killed := Exec(d, Create(host, r, None, kill));
    assert CreateProgram(d, host, r, None).writes == PublishWrites(d, host, r);
    KilledPublish(d, host, r, kill);
  }

  lemma KilledPublish(d: Disk, host: nat, r: Request, kill: nat)
    requires d.pending.None? && d.core.None?
    ensures PerformAll(d, Done(PublishWrites(d, host, r), kill))
            == Disk(if kill > 1 then Some(r.core) else None,
                    if 0 < kill < 4 then Some(PendingOf(r)) else None,
                    if kill > 2 then AppendTo(d.ledgers, host, AcceptedBy(r)) else d.ledgers)
  {
    var ws := [PutPending(PendingOf(r)), PutCore(r.core), AppendAttempt(host, AcceptedBy(r)), ClearPending];
    assert PublishWrites(d, host, r) == ws;
    PerformUpTo4(d, Done(ws, kill));
  }

  /**
    After an acceptance, in any later run on any hosts, nothing is written any more. The
    same request is replayed and every other one refused exactly when the hosts whose
    ledgers are read later had no line for the id; otherwise the ledgers are in conflict
    for good.
  */
  lemma AcceptanceIsFinalExactly(d: Disk, host: nat, r: Request, first: Option<string>, run: seq<Action>,
                                 again: nat, other: Request, verdict: Option<string>)
    requires Binding(d).None? && CreateProgram(d, host, r, first).outcome in {Created, Replayed}
    ensures var later := Run(Exec(d, Create(host, r, first, UNKILLED)), run);
            var program := CreateProgram(later, again, other, verdict);
            && AcceptedFor(later, r) && program.writes == []
            && program.outcome ==
               if Above(d.ledgers, host) != [] then Refused(ConflictingAttempts)
               else if other.digest == r.digest && other.core.semantics == r.core.semantics then Replayed
               else Refused(CreationConflict)
  {
    CreatedDisk(d, host, r, first);
    RunBound(Exec(d, Create(host, r, first, UNKILLED)), run);
    AcceptedIsReadExactly(d.ledgers, host, r);
  }

  lemma SecondLedger(a: Attempt)
    ensures Above(AppendTo([], 1, a), 0) == [a]
  {
    var more := AppendTo([], 0, a);
    assert more == [[a]] by { assert [] + [a] == [a]; }
    assert AppendTo([], 1, a)[1..] == more && more[1..] == [];
    assert Flatten(more) == [a] + Flatten([]);
  }

  /**
    Such a conflict: a rejection that reads like a crash on one host leaves the id free,
    the host read before it creates the card, and from then on its own request is refused.
  */
  lemma ALaterLedgerConflicts(r: Request, digest: string, reason: string)
    requires CrashReason(reason)
    ensures var run := [Reserve(1, digest, reason, UNKILLED), Create(0, r, None, UNKILLED)];
            && AcceptedFor(Run(FRESH, run), r)
            && CreateProgram(Run(FRESH, run), 0, r, None).outcome == Refused(ConflictingAttempts)
  {
    var a := Attempt(digest, None, Rejected, reason);
    var first, second := Reserve(1, digest, reason, UNKILLED), Create(0, r, None, UNKILLED);
    var d := Disk(None, None, AppendTo([], 1, a));
    PerformUpTo4(FRESH, [ClearPending, AppendAttempt(1, a)]);
    assert Exec(FRESH, first) == d;
    AppendBinds(FRESH, 1, a);
    AttemptIsBinder(Flatten(d.ledgers));
    SecondLedger(a);
    AcceptanceIsFinalExactly(d, 0, r, None, [], 0, r, None);
    assert [first, second][1..] == [second] && [second][1..] == [];
    assert Run(d, [second]) == Run(Exec(d, second), []);
  }

  /** A policy rejection on a free id, done to the end. */
  lemma RejectedDisk(d: Disk, host: nat, r: Request, reason: string) returns (rejected: Disk)
    requires Binding(d).None? && d.pending.None? && d.core.None?
    ensures rejected == Exec(d, Create(host, r, Some(reason), UNKILLED))
    ensures rejected == d.(ledgers := AppendTo(d.ledgers, host, RejectionOf(r, reason)))
    ensures Binding(rejected) == if CrashReason(reason) then None else Some(RejectionOf(r, reason))
  {
    AttemptIsBinder(Flatten(d.ledgers));
    PerformUpTo4(d, [AppendAttempt(host, RejectionOf(r, reason))]);
    AppendBinds(d, host, RejectionOf(r, reason));
    rejected := Exec(d, Create(host, r, Some(reason), UNKILLED));
  }

  /**
    A policy rejection reserves the id against everything but ordinary creations
    exactly when its text does not read like a crash. The governor's text quotes card
    ids, so an id that spells one of the crash marks defeats the reservation.
  */
  lemma PolicyRejectReservesExactly(d: Disk, host: nat, r: Request, reason: string)
    requires Binding(d).None? && d.pending.None? && d.core.None?
    ensures var rejected := Exec(d, Create(host, r, Some(reason), UNKILLED));
            (forall run: seq<Action> :: Run(rejected, run).core.Some? ==> AdmitsOrdinary(run))
            <==> !CrashReason(reason)
  {
    var rejected := RejectedDisk(d, host, r, reason);
    if CrashReason(reason) {
      var create := Create(host, r, None, UNKILLED);
      var again := [create];
      AttemptIsBinder(Flatten(rejected.ledgers));
      CreatedDisk(rejected, host, r, None);
      assert again[1..] == [] && !Admits(again[0]);
      assert Run(rejected, again) == Run(Exec(rejected, create), []) == Exec(rejected, create);
      assert !AdmitsOrdinary(again);
    } else {
      forall run: seq<Action> ensures Run(rejected, run).core.Some? ==> AdmitsOrdinary(run) {
        RunBound(rejected, run);
      }
    }
  }

  /** The ledger does not stop ordinary creations: one that is admitted gives a reserved id its core. */
  lemma ReservationHoldsExactly(d: Disk, host: nat, r: Request, reason: string, run: seq<Action>)
    requires Binding(d).None? && d.pending.None? && d.core.None? && !CrashReason(reason)
    ensures Run(Exec(d, Create(host, r, Some(reason), UNKILLED)), run).core.None? <==> !AdmitsOrdinary(run)
  {
    var rejected := RejectedDisk(d, host, r, reason);
    RunBound(rejected, run);
  }

  // ----- Outcomes are true -----

  /**
    An unkilled call reports success only when the card is there with the request's own
    semantics under its accepted record, and reports a creation exactly when it wrote
    the core.
  */
  lemma SuccessIsTrue(d: Disk, host: nat, r: Request, verdict: Option<string>)
    requires Sound(d)
    ensures var outcome, d' := CreateProgram(d, host, r, verdict).outcome, Exec(d, Create(host, r, verdict, UNKILLED));
            && (outcome in {Created, Replayed} ==>
                  && d'.core.Some? && d'.core.value.semantics == r.core.semantics
                  && Binding(d').Some? && SameAttempt(Binding(d').value, AcceptedBy(r)))
            && (outcome == Created <==> d.core.None? && d'.core.Some?)
            && (outcome == Created ==> d'.core == Some(r.core))
            && outcome != Ignored && outcome != Killed
  {
    AttemptIsBinder(Flatten(d.ledgers));
    var outcome, ws := CreateProgram(d, host, r, verdict).outcome, CreateProgram(d, host, r, verdict).writes;
    if Binding(d).None? && outcome in {Created, Replayed} {
      CreatedDisk(d, host, r, verdict);
    } else if Binding(d).None? && ws != [] {
      PerformUpTo4(d, ws);
    } else {
      assert PerformAll(d, []) == d;
    }
  }

  /** On a free id the governor alone decides, and its refusal is recorded and passed on as it is. */
  lemma FreeIdIsGoverned(d: Disk, host: nat, r: Request, verdict: Option<string>)
    requires Binding(d).None? && d.pending.None? && d.core.None?
    ensures var outcome, d' := CreateProgram(d, host, r, verdict).outcome, Exec(d, Create(host, r, verdict, UNKILLED));
            if verdict.None? then outcome == Created && AcceptedFor(d', r)
            else outcome == Refused(Policy(verdict.value))
                 && d'.ledgers == AppendTo(d.ledgers, host,
                                           Attempt(r.digest, Some(r.core.semantics), Rejected, verdict.value))
  {
    AttemptIsBinder(Flatten(d.ledgers));
    if verdict.None? {
      CreatedDisk(d, host, r, verdict);
    } else {
      var rejected := RejectedDisk(d, host, r, verdict.value);
    }
  }

  /** Once a rejection binds the id, every explicit call of any later run is refused. */
  lemma RejectionRefusesAll(d: Disk, run: seq<Action>, host: nat, r: Request, verdict: Option<string>)
    requires Binding(d).Some? && Binding(d).value.verdict == Rejected
    ensures CreateProgram(Run(d, run), host, r, verdict).outcome in {Refused(Reserved), Refused(ConflictingAttempts)}
  {
    RunBound(d, run);
    AttemptIsBinder(Flatten(Run(d, run).ledgers));
  }

  /** What reserving leaves: the rejection on a free id, and nothing otherwise. */
  lemma ReserveIsTrue(d: Disk, host: nat, digest: string, reason: string)
    requires Sound(d)
    ensures var outcome := ReserveProgram(d, host, digest, reason).outcome;
            var d' := Exec(d, Reserve(host, digest, reason, UNKILLED));
            if d.core.None? && Binding(d).None? then
              && outcome == Ignored && d'.core.None? && d'.pending.None?
              && d'.ledgers == AppendTo(d.ledgers, host, Attempt(digest, None, Rejected, reason))
            else d' == d && outcome in {Ignored, Refused(ConflictingAttempts)}
  {
    AttemptIsBinder(Flatten(d.ledgers));
    PerformUpTo4(d, ReserveProgram(d, host, digest, reason).writes);
  }

  /** An ordinary creation reports a creation exactly when it wrote its core. */
  lemma OrdinaryIsTrue(d: Disk, core: Core, verdict: Option<string>)
    ensures var outcome, d' := OrdinaryProgram(d, core, verdict).outcome, Exec(d, Ordinary(core, verdict, UNKILLED));
            && d' == (if outcome == Created then d.(core := Some(core)) else d)
            && (outcome == Created <==> d.core.None? && verdict.None?)
            && (outcome == Ignored <==> d.core.Some?)
            && (outcome.Refused? ==> verdict.Some? && outcome == Refused(Policy(verdict.value)))
  {
    PerformUpTo4(d, OrdinaryProgram(d, core, verdict).writes);
  }

  /** Any refusal that quotes an id spelled with ENOSPC in it reads like a crash. */
  lemma QuotedIdReadsLikeACrash(before: string, after: string)
    ensures CrashReason(before + "ENOSPC" + after)
  {
    LowerConcat(before + "ENOSPC", after);
    LowerConcat(before, "ENOSPC");
    LowerMark();
    ContainsPart(Lower(before), "enospc", Lower(after));
    assert CRASH_MARKS[1] == "enospc";
  }

  lemma LowerMark()
    ensures Lower("ENOSPC") == "enospc"
  {
    var s := "ENOSPC";
    assert s[1..] == "NOSPC" && s[2..] == "OSPC" && s[3..] == "SPC" && s[4..] == "PC" && s[5..] == "C" && s[6..] == "";
    assert s[1..][1..] == s[2..] && s[2..][1..] == s[3..] && s[3..][1..] == s[4..];
    assert s[4..][1..] == s[5..] && s[5..][1..] == s[6..];
    assert Lower(s[6..]) == "";
    assert Lower(s[5..]) == "c";
    assert Lower(s[4..]) == "pc";
    assert Lower(s[3..]) == "spc";
    assert Lower(s[2..]) == "ospc";
    assert Lower(s[1..]) == "nospc";
  }

  // ----- The store that steps through the writes -----

  class CreationStore {
    var core: Option<Core>
    var pending: Option<Pending>
    var ledgers: seq<seq<Attempt>>

    ghost function View(): Disk
      reads this
    {
      Disk(core, pending, ledgers)
    }

    constructor ()
      ensures View() == FRESH
    {
      core, pending, ledgers := None, None, [];
    }

    /** `_read_creation_attempts`: one ledger file after the other. */
    method ReadAttempts() returns (records: seq<Attempt>)
      ensures records == Flatten(ledgers)
    {
      records := [];
      for i := 0 to |ledgers|
        invariant records + Flatten(ledgers[i..]) == Flatten(ledgers)
      {
        assert ledgers[i..][1..] == ledgers[i + 1..];
        records := records + ledgers[i];
      }
      assert ledgers[|ledgers|..] == [];
    }

    /** `create_explicit`, killed once `kill` durable writes have been done. */
    method CreateExplicit(host: nat, r: Request, verdict: Option<string>, kill: nat) returns (outcome: Outcome)
      modifies this
      ensures View() == Exec(old(View()), Create(host, r, verdict, kill))
      ensures outcome == if kill < |CreateProgram(old(View()), host, r, verdict).writes| then Killed
                         else CreateProgram(old(View()), host, r, verdict).outcome
      ensures Sound(old(View())) ==> Sound(View())
    {
      ghost var d := View();
      if Sound(d) { ExecKeeps(d, Create(host, r, verdict, kill)); }
      assert PerformAll(d, []) == d;
      var records := ReadAttempts();
      var attempt := AttemptFor(records);
      if attempt.Failure? { return Refused(attempt.error); }
      if attempt.value.Some? && attempt.value.value.verdict == Rejected { return Refused(Reserved); }
      if attempt.value.Some? { return ReplayAccepted(core, r, attempt.value.value); }
      if pending.Some? {
        if pending.value != PendingOf(r) { return Refused(CreationConflict); }
        if core.Some? {
          if core.value.semantics != r.core.semantics { return Refused(CreationConflict); }
          PerformUpTo4(d, Done([AppendAttempt(host, AcceptedBy(r)), ClearPending], kill));
          if kill == 0 { return Killed; }
          ledgers := AppendTo(ledgers, host, AcceptedBy(r));
          if kill == 1 { return Killed; }
          pending := None;
          return Replayed;
        }
      } else if core.Some? {
        return Refused(CreationConflict);
      }
      if pending.None? && verdict.Some? {
        PerformUpTo4(d, Done([AppendAttempt(host, RejectionOf(r, verdict.value))], kill));
        if kill == 0 { return Killed; }
        ledgers := AppendTo(ledgers, host, RejectionOf(r, verdict.value));
        return Refused(Policy(verdict.value));
      }
      outcome := Publish(host, r, kill);
    }

    /** The intent if it is missing, then the core, the record, and the intent cleared. */
    method Publish(host: nat, r: Request, kill: nat) returns (outcome: Outcome)
      requires core.None? && (pending.Some? ==> pending.value == PendingOf(r))
      modifies this
      ensures View() == PerformAll(old(View()), Done(PublishWrites(old(View()), host, r), kill))
      ensures outcome == if kill < |PublishWrites(old(View()), host, r)| then Killed else Created
    {
      ghost var d := View();
      PerformUpTo4(d, Done(PublishWrites(d, host, r), kill));
      var left := kill;
      if pending.None? {
        if left == 0 { return Killed; }
        pending, left := Some(PendingOf(r)), left - 1;
      }
      if left == 0 { return Killed; }
      core := Some(r.core);
      if left == 1 { return Killed; }
      ledgers := AppendTo(ledgers, host, AcceptedBy(r));
      if left == 2 { return Killed; }
      pending := None;
      return Created;
    }

    /** `reserve_explicit_rejection`: clear the intent, then record the rejection. */
    method ReserveRejection(host: nat, digest: string, reason: string, kill: nat) returns (outcome: Outcome)
      modifies this
      ensures View() == Exec(old(View()), Reserve(host, digest, reason, kill))
      ensures outcome == if kill < |ReserveProgram(old(View()), host, digest, reason).writes| then Killed
                         else ReserveProgram(old(View()), host, digest, reason).outcome
      ensures Sound(old(View())) ==> Sound(View())
    {
      ghost var d := View();
      PerformUpTo4(d, Done(ReserveProgram(d, host, digest, reason).writes, kill));
      if Sound(d) { ExecKeeps(d, Reserve(host, digest, reason, kill)); }
      var records := ReadAttempts();
      var attempt := AttemptFor(records);
      if attempt.Failure? { return Refused(attempt.error); }
      if core.Some? || attempt.value.Some? { return Ignored; }
      if kill == 0 { return Killed; }
      pending := None;
      if kill == 1 { return Killed; }
      ledgers := AppendTo(ledgers, host, Attempt(digest, None, Rejected, reason));
      return Ignored;
    }

    /** `create`: the core alone. */
    method CreateOrdinary(c: Core, verdict: Option<string>, kill: nat) returns (outcome: Outcome)
      modifies `core
      ensures View() == Exec(old(View()), Ordinary(c, verdict, kill))
      ensures outcome == if kill < |OrdinaryProgram(old(View()), c, verdict).writes| then Killed
                         else OrdinaryProgram(old(View()), c, verdict).outcome
      ensures Sound(old(View())) ==> Sound(View())
    {
      ghost var d := View();
      PerformUpTo4(d, Done(OrdinaryProgram(d, c, verdict).writes, kill));
      if Sound(d) { ExecKeeps(d, Ordinary(c, verdict, kill)); }
      if core.Some? { return Ignored; }
      if verdict.Some? { return Refused(Policy(verdict.value)); }
      if kill == 0 { return Killed; }
      core := Some(c);
      return Created;
    }
  }
}
