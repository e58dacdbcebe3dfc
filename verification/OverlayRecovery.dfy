/**
  Apply and rollback of one overlay recovery plan (`card_event_recovery.py`). Each
  call publishes immutable evidence and replaces the shard once, and a kill may
  fall between any two of those durable steps.
*/
module OverlayRecovery {
  import opened RowRemoval
  import opened Wrappers

  /** A validated plan: both images and every row to reject, by digest. */
  datatype Plan = Plan(source: Digest, repaired: Digest, targets: seq<Target>)

  datatype Name =
    | Original | RejectedLine(number: nat) | Intent | Receipt | RollbackIntent | RollbackReceipt

  /** Evidence contents. Receipts carry the time they were made. */
  datatype Artifact =
    | Raw(bytes: Bytes)
    | IntentDoc(plan: Plan)
    | ReceiptDoc(plan: Plan, at: string)
    | RollbackIntentDoc(plan: Plan)
    | RollbackReceiptDoc(plan: Plan, at: string)

  type Evidence = map<Name, Artifact>

  datatype Disk = Disk(shard: Option<Bytes>, evidence: Evidence)

  datatype Error =
    | NotAuthorised | ShardAbsent | CompletedConflict | ShardChanged | Unrepairable | RepairMismatch
    | NoIntent | IntentMismatch | EvidenceMismatch | NotClean | NoReceipt
    | InterveningChange | NoRollbackIntent | ArtifactConflict

  datatype Outcome = Completed(receipt: Artifact) | Refused(why: Error) | Killed

  // ----- Durable steps -----

  datatype Step = Publish(name: Name, artifact: Artifact) | Replace(expected: Digest, bytes: Bytes)

  datatype Status = Finished | Stopped | Failed(why: Error)

  /** `_publish` creates an artifact or accepts an exact retry; `_replace` checks the digest first. */
  function StepError(d: Disk, s: Step): Option<Error> {
    match s
    case Publish(name, artifact) =>
      if name in d.evidence && d.evidence[name] != artifact then Some(ArtifactConflict) else None
    case Replace(expected, _) =>
      if Sha(if d.shard.Some? then d.shard.value else []) != expected then Some(ShardChanged) else None
  }

  function Perform(d: Disk, s: Step): Disk {
    match s
    case Publish(name, artifact) => d.(evidence := d.evidence[name := artifact])
    case Replace(_, bytes) => d.(shard := Some(bytes))
  }

  /** Performs steps until one fails or the process is killed after `kill` of them. */
  function Execute(d: Disk, steps: seq<Step>, kill: nat): (Disk, Status)
    decreases |steps|
  {
    if steps == [] then (d, Finished)
    else if kill == 0 then (d, Stopped)
    else if StepError(d, steps[0]).Some? then (d, Failed(StepError(d, steps[0]).value))
    else Execute(Perform(d, steps[0]), steps[1..], kill - 1)
  }

  /** A call either refuses at once or runs its steps. */
  datatype Program = Refuse(why: Error) | Steps(steps: seq<Step>, receipt: Artifact)

  function RejectedSteps(targets: seq<Target>, rows: seq<Bytes>): seq<Step>
    requires |targets| == |rows|
  {
    seq(|targets|, i requires 0 <= i < |targets| => Publish(RejectedLine(targets[i].number), Raw(rows[i])))
  }

  /** Every rejected row and the original are in the evidence, as pinned. */
  predicate RowsMatch(ev: Evidence, targets: seq<Target>) {
    forall i :: 0 <= i < |targets| ==>
      var name := RejectedLine(targets[i].number);
      name in ev && ev[name].Raw? && Sha(ev[name].bytes) == targets[i].sha
  }

  predicate OriginalMatches(ev: Evidence, source: Digest) {
    Original in ev && ev[Original].Raw? && Sha(ev[Original].bytes) == source
  }

  ghost function RepairOf(raw: Bytes, plan: Plan, schema: Schema): Option<Repair> {
    var lines := SplitLines(raw);
    if Repairable(lines, plan.targets, schema)
    then
      assert forall i :: 0 <= i < |plan.targets| ==> TargetError(lines, plan.targets[i], schema).None?;
      Some(Repair(Rejected(lines, plan.targets), Join(Survivors(lines, plan.targets))))
    else None
  }

  ghost function ApplyProgram(d: Disk, plan: Plan, schema: Schema, authorised: bool, now: string): Program {
    if !authorised then Refuse(NotAuthorised)
    else if d.shard.None? then Refuse(ShardAbsent)
    else
      var current := Sha(d.shard.value);
      if Receipt in d.evidence then
        if !d.evidence[Receipt].ReceiptDoc? || d.evidence[Receipt].plan != plan || current != plan.repaired
        then Refuse(CompletedConflict)
        else Steps([], d.evidence[Receipt])
      else if current == plan.source then
        var repair := RepairOf(d.shard.value, plan, schema);
        if repair.None? then Refuse(Unrepairable)
        else if Sha(repair.value.image) != plan.repaired then Refuse(RepairMismatch)
        else
          Steps([Publish(Original, Raw(d.shard.value))]
                + RejectedSteps(plan.targets, repair.value.rejected)
                + [Publish(Intent, IntentDoc(plan)), Replace(plan.source, repair.value.image),
                   Publish(Receipt, ReceiptDoc(plan, now))],
                ReceiptDoc(plan, now))
      else if current == plan.repaired then
        if Intent !in d.evidence then Refuse(NoIntent)
        else if d.evidence[Intent] != IntentDoc(plan) then Refuse(IntentMismatch)
        else if !OriginalMatches(d.evidence, plan.source) || !RowsMatch(d.evidence, plan.targets) then
          Refuse(EvidenceMismatch)
        else if !Clean(d.shard.value, schema) then Refuse(NotClean)
        else Steps([Publish(Receipt, ReceiptDoc(plan, now))], ReceiptDoc(plan, now))
      else Refuse(ShardChanged)
  }

  function RollbackProgram(d: Disk, authorised: bool, now: string): Program {
    if Receipt !in d.evidence || !d.evidence[Receipt].ReceiptDoc? then Refuse(NoReceipt)
    else if !authorised then Refuse(NotAuthorised)
    else if d.shard.None? then Refuse(ShardAbsent)
    else
      var plan, current := d.evidence[Receipt].plan, Sha(d.shard.value);
      var done := RollbackReceiptDoc(plan, now);
      if RollbackReceipt in d.evidence then
        if current != plan.source then Refuse(InterveningChange) else Steps([], d.evidence[RollbackReceipt])
      else if !OriginalMatches(d.evidence, plan.source) then Refuse(EvidenceMismatch)
      else if current == plan.repaired then
        Steps([Publish(RollbackIntent, RollbackIntentDoc(plan)),
               Replace(plan.repaired, d.evidence[Original].bytes),
               Publish(RollbackReceipt, done)], done)
      else if current == plan.source then
        if RollbackIntent !in d.evidence then Refuse(NoRollbackIntent)
        else if d.evidence[RollbackIntent] != RollbackIntentDoc(plan) then Refuse(IntentMismatch)
        else Steps([Publish(RollbackReceipt, done)], done)
      else Refuse(InterveningChange)
  }

  ghost function Carry(d: Disk, p: Program, kill: nat): (Disk, Outcome) {
    match p
    case Refuse(why) => (d, Refused(why))
    case Steps(steps, receipt) =>
      var (d', status) := Execute(d, steps, kill);
      (d', match status
           case Finished => Completed(receipt)
           case Stopped => Killed
           case Failed(why) => Refused(why))
  }

  ghost function Apply(d: Disk, plan: Plan, schema: Schema, authorised: bool, now: string, kill: nat): (Disk, Outcome) {
    Carry(d, ApplyProgram(d, plan, schema, authorised, now), kill)
  }

  ghost function Rollback(d: Disk, authorised: bool, now: string, kill: nat): (Disk, Outcome) {
    Carry(d, RollbackProgram(d, authorised, now), kill)
  }

  // ----- Runs -----

  /** Calls for one plan, and whatever another writer leaves in the shard. */
  datatype Action =
    | DoApply(authorised: bool, now: string, kill: nat)
    | DoRollback(authorised: bool, now: string, kill: nat)
    | Foreign(shard: Option<Bytes>)

  ghost function Act(d: Disk, plan: Plan, schema: Schema, a: Action): Disk {
    match a
    case DoApply(authorised, now, kill) => Apply(d, plan, schema, authorised, now, kill).0
    case DoRollback(authorised, now, kill) => Rollback(d, authorised, now, kill).0
    case Foreign(shard) => d.(shard := shard)
  }

  ghost function Run(d: Disk, plan: Plan, schema: Schema, run: seq<Action>): Disk
    decreases |run|
  {
    if run == [] then d else Run(Act(d, plan, schema, run[0]), plan, schema, run[1..])
  }

  // ----- What the evidence says -----

  ghost predicate FullEvidence(ev: Evidence, plan: Plan) {
    && OriginalMatches(ev, plan.source) && RowsMatch(ev, plan.targets)
    && Intent in ev && ev[Intent] == IntentDoc(plan)
  }

  /** Whatever is present is right, and each document implies the one before it. */
  ghost predicate SoundEvidence(ev: Evidence, plan: Plan) {
    && (Original in ev ==> OriginalMatches(ev, plan.source))
    && (forall i :: 0 <= i < |plan.targets| && RejectedLine(plan.targets[i].number) in ev ==>
          ev[RejectedLine(plan.targets[i].number)] == Raw(plan.targets[i].sha.raw))
    && (Intent in ev ==> FullEvidence(ev, plan))
    && (Receipt in ev ==> Intent in ev && ev[Receipt].ReceiptDoc? && ev[Receipt].plan == plan)
    && (RollbackIntent in ev ==> Receipt in ev && ev[RollbackIntent] == RollbackIntentDoc(plan))
    && (RollbackReceipt in ev ==> RollbackIntent in ev)
  }

  /** The plan describes a repair of its own source. */
  ghost predicate GoodPlan(plan: Plan, schema: Schema) {
    && Ordered(plan.targets)
    && Repairable(SplitLines(plan.source.raw), plan.targets, schema)
    && plan.repaired == Sha(Join(Survivors(SplitLines(plan.source.raw), plan.targets)))
  }

  // ----- Every step a program takes is legal -----

  /** An artifact that may be published next. */
  ghost predicate Allowed(ev: Evidence, plan: Plan, name: Name, artifact: Artifact) {
    match name
    case Original => artifact == Raw(plan.source.raw)
    case RejectedLine(n) =>
      exists i :: 0 <= i < |plan.targets| && plan.targets[i].number == n && artifact == Raw(plan.targets[i].sha.raw)
    case Intent =>
      artifact == IntentDoc(plan) && OriginalMatches(ev, plan.source) && RowsMatch(ev, plan.targets)
    case Receipt => artifact.ReceiptDoc? && artifact.plan == plan && Receipt !in ev && Intent in ev
    case RollbackIntent => artifact == RollbackIntentDoc(plan) && Receipt in ev
    case RollbackReceipt => artifact.RollbackReceiptDoc? && RollbackReceipt !in ev && RollbackIntent in ev
  }

  /** The shard is replaced only image for image, with the evidence already durable. */
  ghost predicate LegalStep(d: Disk, plan: Plan, s: Step) {
    match s
    case Publish(name, artifact) =>
      && Allowed(d.evidence, plan, name, artifact)
      && (name == Receipt ==> d.shard == Some(plan.repaired.raw))
      && (name == RollbackReceipt ==> d.shard == Some(plan.source.raw))
    case Replace(expected, bytes) =>
      && d.shard.Some? && Sha(d.shard.value) == expected
      && (|| (expected == plan.source && bytes == plan.repaired.raw
              && FullEvidence(d.evidence, plan) && Receipt !in d.evidence)
          || (expected == plan.repaired && bytes == plan.source.raw
              && RollbackIntent in d.evidence && RollbackReceipt !in d.evidence))
  }

  ghost predicate Legal(d: Disk, plan: Plan, steps: seq<Step>)
    decreases |steps|
  {
    steps == [] || (LegalStep(d, plan, steps[0]) && Legal(Perform(d, steps[0]), plan, steps[1..]))
  }

  /**
    What a call may do to the disk: evidence only grows, and the shard either
    stays, or goes from the source to the repaired image with all evidence
    durable, or from the repaired image back to the exact source bytes.
  */
  ghost predicate Moves(d: Disk, d': Disk, plan: Plan) {
    && (forall n :: n in d.evidence ==> n in d'.evidence && d'.evidence[n] == d.evidence[n])
    && (|| d'.shard == d.shard
        || (d.shard == Some(plan.source.raw) && d'.shard == Some(plan.repaired.raw) && FullEvidence(d'.evidence, plan))
        || (d.shard == Some(plan.repaired.raw) && d'.shard == Some(plan.source.raw) && RollbackIntent in d'.evidence))
  }

  lemma FullEvidenceGrows(ev: Evidence, ev': Evidence, plan: Plan)
    requires FullEvidence(ev, plan) && forall n :: n in ev ==> n in ev' && ev'[n] == ev[n]
    ensures FullEvidence(ev', plan)
  {
    forall i | 0 <= i < |plan.targets|
      ensures var name := RejectedLine(plan.targets[i].number);
              name in ev' && ev'[name].Raw? && Sha(ev'[name].bytes) == plan.targets[i].sha
    {
      assert RejectedLine(plan.targets[i].number) in ev;
    }
  }

  lemma PublishIsSound(d: Disk, plan: Plan, name: Name, artifact: Artifact)
    requires SoundEvidence(d.evidence, plan) && Ordered(plan.targets) && Allowed(d.evidence, plan, name, artifact)
    ensures StepError(d, Publish(name, artifact)).None?
    ensures SoundEvidence(d.evidence[name := artifact], plan)
    ensures forall n :: n in d.evidence ==> d.evidence[name := artifact][n] == d.evidence[n]
  {
    if name in d.evidence {
      assert d.evidence[name] == artifact;
      assert d.evidence[name := artifact] == d.evidence;
    } else if Intent in d.evidence {
      FullEvidenceGrows(d.evidence, d.evidence[name := artifact], plan);
    }
  }

  lemma StepIsSafe(d: Disk, plan: Plan, s: Step)
    requires SoundEvidence(d.evidence, plan) && Ordered(plan.targets) && LegalStep(d, plan, s)
    ensures StepError(d, s).None?
    ensures SoundEvidence(Perform(d, s).evidence, plan) && Moves(d, Perform(d, s), plan)
  {
    if s.Publish? { PublishIsSound(d, plan, s.name, s.artifact); }
  }

  lemma MovesTransitive(a: Disk, b: Disk, c: Disk, plan: Plan)
    requires Moves(a, b, plan) && Moves(b, c, plan)
    ensures Moves(a, c, plan)
  {
    if FullEvidence(b.evidence, plan) { FullEvidenceGrows(b.evidence, c.evidence, plan); }
  }

  /** Legal steps never fail, whatever the kill. */
  lemma {:induction false} LegalStepsRun(d: Disk, plan: Plan, steps: seq<Step>, kill: nat)
    requires SoundEvidence(d.evidence, plan) && Ordered(plan.targets) && Legal(d, plan, steps)
    ensures var (d', status) := Execute(d, steps, kill);
            && SoundEvidence(d'.evidence, plan) && Moves(d, d', plan)
            && (status == if kill >= |steps| then Finished else Stopped)
    decreases |steps|
  {
    if steps != [] && kill > 0 {
      StepIsSafe(d, plan, steps[0]);
      LegalStepsRun(Perform(d, steps[0]), plan, steps[1..], kill - 1);
      MovesTransitive(d, Perform(d, steps[0]), Execute(d, steps, kill).0, plan);
    }
  }

  /** The first `k` rejected rows are durable. */
  ghost predicate RowsUpTo(ev: Evidence, targets: seq<Target>, k: nat)
    requires k <= |targets|
  {
    forall i :: 0 <= i < k ==> RejectedLine(targets[i].number) in ev
                               && ev[RejectedLine(targets[i].number)] == Raw(targets[i].sha.raw)
  }

  lemma RowsComplete(ev: Evidence, targets: seq<Target>)
    requires RowsUpTo(ev, targets, |targets|)
    ensures RowsMatch(ev, targets)
  {
    forall i | 0 <= i < |targets|
      ensures var name := RejectedLine(targets[i].number);
              name in ev && ev[name].Raw? && Sha(ev[name].bytes) == targets[i].sha
    {
    }
  }

  /** The steps from the `k`-th rejected row on, for a repair of the source. */
  function LastSteps(plan: Plan, now: string): seq<Step> {
    [Publish(Intent, IntentDoc(plan)), Replace(plan.source, plan.repaired.raw), Publish(Receipt, ReceiptDoc(plan, now))]
  }

  ghost predicate AtSource(d: Disk, plan: Plan) {
    d.shard == Some(plan.source.raw) && Receipt !in d.evidence && OriginalMatches(d.evidence, plan.source)
  }

  lemma LastStepsLegal(d: Disk, plan: Plan, now: string)
    requires AtSource(d, plan) && RowsMatch(d.evidence, plan.targets)
    ensures Legal(d, plan, LastSteps(plan, now))
  {
    var steps := LastSteps(plan, now);
    var d1 := Perform(d, steps[0]);
    assert RowsMatch(d1.evidence, plan.targets) by {
      forall i | 0 <= i < |plan.targets|
        ensures var name := RejectedLine(plan.targets[i].number);
                name in d1.evidence && d1.evidence[name].Raw? && Sha(d1.evidence[name].bytes) == plan.targets[i].sha
      {
        assert RejectedLine(plan.targets[i].number) in d.evidence;
      }
    }
    var d2 := Perform(d1, steps[1]);
    var d3 := Perform(d2, steps[2]);
    assert steps[1..][1..] == steps[2..] && steps[2..][1..] == [];
    assert Legal(d3, plan, []);
    assert Legal(d2, plan, steps[2..]);
    assert LegalStep(d1, plan, steps[1..][0]);
    assert Legal(d1, plan, steps[1..]);
  }

  lemma {:induction false} RejectedStepsLegal(d: Disk, plan: Plan, rows: seq<Bytes>, now: string, k: nat)
    requires Ordered(plan.targets) && AtSource(d, plan) && |rows| == |plan.targets| && k <= |rows|
    requires forall i :: 0 <= i < |rows| ==> Sha(rows[i]) == plan.targets[i].sha
    requires RowsUpTo(d.evidence, plan.targets, k)
    ensures Legal(d, plan, RejectedSteps(plan.targets, rows)[k..] + LastSteps(plan, now))
    decreases |rows| - k
  {
    var all, last := RejectedSteps(plan.targets, rows), LastSteps(plan, now);
    if k == |rows| {
      RowsComplete(d.evidence, plan.targets);
      LastStepsLegal(d, plan, now);
      assert all[k..] + last == last;
    } else {
      var s := all[k];
      var d' := Perform(d, s);
      assert Allowed(d.evidence, plan, s.name, s.artifact);
      assert RowsUpTo(d'.evidence, plan.targets, k + 1);
      RejectedStepsLegal(d', plan, rows, now, k + 1);
      assert (all[k..] + last)[1..] == all[k + 1..] + last;
    }
  }

  lemma ApplyIsLegal(d: Disk, plan: Plan, schema: Schema, authorised: bool, now: string)
    requires SoundEvidence(d.evidence, plan) && Ordered(plan.targets)
    requires ApplyProgram(d, plan, schema, authorised, now).Steps?
    ensures Legal(d, plan, ApplyProgram(d, plan, schema, authorised, now).steps)
  {
    var steps := ApplyProgram(d, plan, schema, authorised, now).steps;
    var current := Sha(d.shard.value);
    if Receipt in d.evidence {
    } else if current == plan.source {
      var repair := RepairOf(d.shard.value, plan, schema).value;
      var first, all := Publish(Original, Raw(d.shard.value)), RejectedSteps(plan.targets, repair.rejected);
      forall i | 0 <= i < |plan.targets| ensures Sha(repair.rejected[i]) == plan.targets[i].sha {
        assert TargetError(SplitLines(d.shard.value), plan.targets[i], schema).None?;
      }
      RejectedStepsLegal(Perform(d, first), plan, repair.rejected, now, 0);
      assert all[0..] == all;
      assert steps == [first] + (all + LastSteps(plan, now));
      assert steps[1..] == all + LastSteps(plan, now);
    } else {
      assert steps[1..] == [];
      assert Legal(Perform(d, steps[0]), plan, []);
    }
  }

  lemma RollbackIsLegal(d: Disk, plan: Plan, authorised: bool, now: string)
    requires SoundEvidence(d.evidence, plan)
    requires RollbackProgram(d, authorised, now).Steps?
    ensures Legal(d, plan, RollbackProgram(d, authorised, now).steps)
  {
    var steps := RollbackProgram(d, authorised, now).steps;
    if RollbackReceipt in d.evidence {
    } else if |steps| == 1 {
      assert steps[1..] == [];
      assert Legal(Perform(d, steps[0]), plan, []);
    } else {
      var d1 := Perform(d, steps[0]);
      var d2 := Perform(d1, steps[1]);
      assert steps[1..][1..] == steps[2..] && steps[2..][1..] == [];
      assert Legal(Perform(d2, steps[2]), plan, []);
      assert Legal(d2, plan, steps[2..]);
      assert LegalStep(d1, plan, steps[1..][0]);
      assert Legal(d1, plan, steps[1..]);
    }
  }

  // ----- Safety of every call -----

  /**
    Whatever the disk holds, a call killed anywhere leaves the evidence sound and
    only grown, never touches a shard that is neither image of the plan, installs
    the repaired image only with the original, every rejected row and the intent
    durable, and puts back nothing but the exact source bytes.
  */
  lemma ApplyIsSafe(d: Disk, plan: Plan, schema: Schema, authorised: bool, now: string, kill: nat)
    requires SoundEvidence(d.evidence, plan) && Ordered(plan.targets)
    ensures var d' := Apply(d, plan, schema, authorised, now, kill).0;
            SoundEvidence(d'.evidence, plan) && Moves(d, d', plan)
  {
    var p := ApplyProgram(d, plan, schema, authorised, now);
    if p.Steps? {
      ApplyIsLegal(d, plan, schema, authorised, now);
      LegalStepsRun(d, plan, p.steps, kill);
    }
  }

  lemma RollbackIsSafe(d: Disk, plan: Plan, authorised: bool, now: string, kill: nat)
    requires SoundEvidence(d.evidence, plan) && Ordered(plan.targets)
    ensures var d' := Rollback(d, authorised, now, kill).0;
            SoundEvidence(d'.evidence, plan) && Moves(d, d', plan)
  {
    var p := RollbackProgram(d, authorised, now);
    if p.Steps? {
      RollbackIsLegal(d, plan, authorised, now);
      LegalStepsRun(d, plan, p.steps, kill);
    }
  }

  /** Another writer never installs the repaired image on its own. */
  ghost predicate NeverForges(plan: Plan, run: seq<Action>) {
    forall i :: 0 <= i < |run| && run[i].Foreign? ==> run[i].shard != Some(plan.repaired.raw)
  }

  ghost predicate RepairedIsEvidenced(d: Disk, plan: Plan) {
    d.shard == Some(plan.repaired.raw) ==> FullEvidence(d.evidence, plan)
  }

  lemma ActKeeps(d: Disk, plan: Plan, schema: Schema, a: Action)
    requires SoundEvidence(d.evidence, plan) && Ordered(plan.targets) && RepairedIsEvidenced(d, plan)
    requires a.Foreign? ==> a.shard != Some(plan.repaired.raw)
    ensures var d' := Act(d, plan, schema, a);
            SoundEvidence(d'.evidence, plan) && RepairedIsEvidenced(d', plan)
  {
    match a
    case DoApply(authorised, now, kill) =>
      ApplyIsSafe(d, plan, schema, authorised, now, kill);
      if FullEvidence(d.evidence, plan) { FullEvidenceGrows(d.evidence, Act(d, plan, schema, a).evidence, plan); }
    case DoRollback(authorised, now, kill) =>
      RollbackIsSafe(d, plan, authorised, now, kill);
      if FullEvidence(d.evidence, plan) { FullEvidenceGrows(d.evidence, Act(d, plan, schema, a).evidence, plan); }
    case Foreign(_) =>
  }

  /**
    Over any run of applies, rollbacks, kills and foreign writes, a repaired shard
    always has its original bytes, rejected rows and intent durable.
  */
  lemma {:induction false} RepairedShardIsAlwaysEvidenced(d: Disk, plan: Plan, schema: Schema, run: seq<Action>)
    requires SoundEvidence(d.evidence, plan) && Ordered(plan.targets) && RepairedIsEvidenced(d, plan)
    requires NeverForges(plan, run)
    ensures var d' := Run(d, plan, schema, run);
            SoundEvidence(d'.evidence, plan) && RepairedIsEvidenced(d', plan)
    decreases |run|
  {
    if run != [] {
      ActKeeps(d, plan, schema, run[0]);
      assert forall i :: 0 <= i < |run[1..]| ==> run[1..][i] == run[i + 1];
      RepairedShardIsAlwaysEvidenced(Act(d, plan, schema, run[0]), plan, schema, run[1..]);
    }
  }

  // ----- Recovery and rollback run to their ends -----

  /** The states our own calls move through, from the source shard on. */
  ghost predicate Cycle(d: Disk, plan: Plan) {
    && SoundEvidence(d.evidence, plan)
    && (d.shard == Some(plan.source.raw) || d.shard == Some(plan.repaired.raw))
    && RepairedIsEvidenced(d, plan)
    && (Receipt in d.evidence && RollbackIntent !in d.evidence ==> d.shard == Some(plan.repaired.raw))
    && (RollbackReceipt in d.evidence ==> d.shard == Some(plan.source.raw))
  }

  lemma StepKeepsCycle(d: Disk, plan: Plan, s: Step)
    requires Cycle(d, plan) && Ordered(plan.targets) && plan.source != plan.repaired && LegalStep(d, plan, s)
    ensures Cycle(Perform(d, s), plan)
  {
    StepIsSafe(d, plan, s);
    if FullEvidence(d.evidence, plan) { FullEvidenceGrows(d.evidence, Perform(d, s).evidence, plan); }
  }

  lemma {:induction false} StepsKeepCycle(d: Disk, plan: Plan, steps: seq<Step>, kill: nat)
    requires Cycle(d, plan) && Ordered(plan.targets) && plan.source != plan.repaired && Legal(d, plan, steps)
    ensures Cycle(Execute(d, steps, kill).0, plan)
    decreases |steps|
  {
    if steps != [] && kill > 0 {
      StepIsSafe(d, plan, steps[0]);
      StepKeepsCycle(d, plan, steps[0]);
      StepsKeepCycle(Perform(d, steps[0]), plan, steps[1..], kill - 1);
    }
  }

  lemma GoodPlanImagesDiffer(plan: Plan, schema: Schema)
    requires GoodPlan(plan, schema)
    ensures plan.source != plan.repaired
  {
    RepairShortens(plan.source.raw, plan.targets, schema);
  }

  lemma ActKeepsCycle(d: Disk, plan: Plan, schema: Schema, a: Action)
    requires Cycle(d, plan) && GoodPlan(plan, schema) && !a.Foreign?
    ensures Cycle(Act(d, plan, schema, a), plan)
  {
    GoodPlanImagesDiffer(plan, schema);
    if a.DoApply? {
      var p := ApplyProgram(d, plan, schema, a.authorised, a.now);
      if p.Steps? {
        ApplyIsLegal(d, plan, schema, a.authorised, a.now);
        StepsKeepCycle(d, plan, p.steps, a.kill);
      }
    } else {
      var p := RollbackProgram(d, a.authorised, a.now);
      if p.Steps? {
        RollbackIsLegal(d, plan, a.authorised, a.now);
        StepsKeepCycle(d, plan, p.steps, a.kill);
      }
    }
  }

  ghost predicate OursOnly(run: seq<Action>) {
    forall i :: 0 <= i < |run| ==> !run[i].Foreign?
  }

  /** Our own calls, killed anywhere, stay in the cycle. */
  lemma {:induction false} RunKeepsCycle(d: Disk, plan: Plan, schema: Schema, run: seq<Action>)
    requires Cycle(d, plan) && GoodPlan(plan, schema) && OursOnly(run)
    ensures Cycle(Run(d, plan, schema, run), plan)
    ensures forall n :: n in d.evidence ==> n in Run(d, plan, schema, run).evidence
    decreases |run|
  {
    if run != [] {
      ActKeepsCycle(d, plan, schema, run[0]);
      ActGrows(d, plan, schema, run[0]);
      assert forall i :: 0 <= i < |run[1..]| ==> run[1..][i] == run[i + 1];
      RunKeepsCycle(Act(d, plan, schema, run[0]), plan, schema, run[1..]);
    }
  }

  lemma ActGrows(d: Disk, plan: Plan, schema: Schema, a: Action)
    requires SoundEvidence(d.evidence, plan) && Ordered(plan.targets)
    ensures forall n :: n in d.evidence ==> n in Act(d, plan, schema, a).evidence
  {
    if a.DoApply? {
      ApplyIsSafe(d, plan, schema, a.authorised, a.now, a.kill);
    } else if a.DoRollback? {
      RollbackIsSafe(d, plan, a.authorised, a.now, a.kill);
    }
  }

  /** A finished list has published its last artifact and nothing unlisted. */
  lemma {:induction false} FinishedPublishes(d: Disk, steps: seq<Step>, kill: nat)
    requires Execute(d, steps, kill).1 == Finished
    ensures var d' := Execute(d, steps, kill).0;
            && (steps != [] && steps[|steps| - 1].Publish? ==> steps[|steps| - 1].name in d'.evidence)
            && (forall n :: n in d'.evidence && n !in d.evidence ==>
                  exists i :: 0 <= i < |steps| && steps[i].Publish? && steps[i].name == n)
    decreases |steps|
  {
    if steps != [] {
      var rest, d1 := steps[1..], Perform(d, steps[0]);
      FinishedPublishes(d1, rest, kill - 1);
      if rest == [] { assert Execute(d, steps, kill).0 == d1; }
      else { assert rest[|rest| - 1] == steps[|steps| - 1]; }
      forall n | n in Execute(d, steps, kill).0.evidence && n !in d.evidence
        ensures exists i :: 0 <= i < |steps| && steps[i].Publish? && steps[i].name == n
      {
        if n in d1.evidence {
          assert steps[0].Publish? && steps[0].name == n;
        } else {
          var i :| 0 <= i < |rest| && rest[i].Publish? && rest[i].name == n;
          assert steps[i + 1] == rest[i];
        }
      }
    }
  }

  /** The number of durable steps an unkilled call takes. */
  ghost function Length(p: Program): nat {
    if p.Steps? then |p.steps| else 0
  }

  /** No apply step starts a rollback. */
  lemma ApplyPublishesNoRollback(d: Disk, plan: Plan, schema: Schema, now: string)
    requires Ordered(plan.targets) && ApplyProgram(d, plan, schema, true, now).Steps?
    ensures var steps := ApplyProgram(d, plan, schema, true, now).steps;
            forall i :: 0 <= i < |steps| && steps[i].Publish? ==> steps[i].name != RollbackIntent
  {
  }

  /**
    In the cycle, an unkilled authorised apply either ends with the repaired image
    and a receipt, or, exactly when a rollback has put the source back, is refused
    and changes nothing.
  */
  lemma ApplyCompletesExactly(d: Disk, plan: Plan, schema: Schema, now: string, kill: nat)
    requires Cycle(d, plan) && GoodPlan(plan, schema)
    requires kill >= Length(ApplyProgram(d, plan, schema, true, now))
    ensures var (d', outcome) := Apply(d, plan, schema, true, now, kill);
            if d.shard == Some(plan.source.raw) && Receipt in d.evidence
            then d' == d && outcome == Refused(CompletedConflict) && RollbackIntent in d.evidence
            else outcome.Completed? && d'.shard == Some(plan.repaired.raw) && Receipt in d'.evidence
  {
    GoodPlanImagesDiffer(plan, schema);
    if d.shard == Some(plan.source.raw) && Receipt in d.evidence {
    } else if Receipt in d.evidence {
      assert ApplyProgram(d, plan, schema, true, now) == Steps([], d.evidence[Receipt]);
    } else {
      var p := ApplyProgram(d, plan, schema, true, now);
      assert p.Steps? && p.steps[|p.steps| - 1] == Publish(Receipt, ReceiptDoc(plan, now));
      ApplyIsLegal(d, plan, schema, true, now);
      LegalStepsRun(d, plan, p.steps, kill);
      StepsKeepCycle(d, plan, p.steps, kill);
      FinishedPublishes(d, p.steps, kill);
      ApplyPublishesNoRollback(d, plan, schema, now);
      var d' := Execute(d, p.steps, kill).0;
      assert RollbackIntent !in d'.evidence;
    }
  }

  /**
    Crash recovery: from the source shard with no evidence, after any number of
    applies killed anywhere, one full apply ends repaired with a receipt.
  */
  lemma KilledAppliesRecover(plan: Plan, schema: Schema, run: seq<Action>, now: string, kill: nat)
    requires GoodPlan(plan, schema) && forall i :: 0 <= i < |run| ==> run[i].DoApply?
    requires var d := Run(Disk(Some(plan.source.raw), map[]), plan, schema, run);
             kill >= Length(ApplyProgram(d, plan, schema, true, now))
    ensures var d := Run(Disk(Some(plan.source.raw), map[]), plan, schema, run);
            var (d', outcome) := Apply(d, plan, schema, true, now, kill);
            outcome.Completed? && d'.shard == Some(plan.repaired.raw) && Receipt in d'.evidence
  {
    GoodPlanImagesDiffer(plan, schema);
    var start := Disk(Some(plan.source.raw), map[]);
    RunKeepsCycle(start, plan, schema, run);
    AppliesStartNoRollback(start, plan, schema, run);
    ApplyCompletesExactly(Run(start, plan, schema, run), plan, schema, now, kill);
  }

  lemma {:induction false} AppliesStartNoRollback(d: Disk, plan: Plan, schema: Schema, run: seq<Action>)
    requires Ordered(plan.targets) && RollbackIntent !in d.evidence
    requires forall i :: 0 <= i < |run| ==> run[i].DoApply?
    ensures RollbackIntent !in Run(d, plan, schema, run).evidence
    decreases |run|
  {
    if run != [] {
      var a := run[0];
      var p := ApplyProgram(d, plan, schema, a.authorised, a.now);
      if p.Steps? {
        ApplyPublishesNoRollback(d, plan, schema, a.now);
        NamesComeFromSteps(d, p.steps, a.kill, RollbackIntent);
      }
      AppliesStartNoRollback(Act(d, plan, schema, a), plan, schema, run[1..]);
    }
  }

  lemma {:induction false} NamesComeFromSteps(d: Disk, steps: seq<Step>, kill: nat, n: Name)
    requires n !in d.evidence && forall i :: 0 <= i < |steps| && steps[i].Publish? ==> steps[i].name != n
    ensures n !in Execute(d, steps, kill).0.evidence
    decreases |steps|
  {
    if steps != [] && kill > 0 && StepError(d, steps[0]).None? {
      assert forall i :: 0 <= i < |steps[1..]| ==> steps[1..][i] == steps[i + 1];
      NamesComeFromSteps(Perform(d, steps[0]), steps[1..], kill - 1, n);
    }
  }

  /**
    Once a receipt exists, an unkilled authorised rollback ends with the exact
    source bytes, however often rollbacks were killed before.
  */
  lemma RollbackRestoresExactly(d: Disk, plan: Plan, schema: Schema, now: string, kill: nat)
    requires Cycle(d, plan) && GoodPlan(plan, schema)
    requires kill >= Length(RollbackProgram(d, true, now))
    ensures var (d', outcome) := Rollback(d, true, now, kill);
            if Receipt !in d.evidence then d' == d && outcome == Refused(NoReceipt)
            else outcome.Completed? && d'.shard == Some(plan.source.raw) && RollbackReceipt in d'.evidence
  {
    GoodPlanImagesDiffer(plan, schema);
    if Receipt in d.evidence {
      var p := RollbackProgram(d, true, now);
      assert p.Steps?;
      if RollbackReceipt !in d.evidence {
        assert p.steps[|p.steps| - 1] == Publish(RollbackReceipt, RollbackReceiptDoc(plan, now));
        RollbackIsLegal(d, plan, true, now);
        LegalStepsRun(d, plan, p.steps, kill);
        StepsKeepCycle(d, plan, p.steps, kill);
        FinishedPublishes(d, p.steps, kill);
      }
    }
  }

  /** After a completed rollback, and any later calls of ours, apply refuses and changes nothing. */
  lemma ApplyAfterRollbackRefuses(d: Disk, plan: Plan, schema: Schema, run: seq<Action>, now: string, kill: nat)
    requires Cycle(d, plan) && GoodPlan(plan, schema) && OursOnly(run) && RollbackReceipt in d.evidence
    ensures var later := Run(d, plan, schema, run);
            && later.shard == Some(plan.source.raw)
            && Apply(later, plan, schema, true, now, kill) == (later, Refused(CompletedConflict))
  {
    GoodPlanImagesDiffer(plan, schema);
    RunKeepsCycle(d, plan, schema, run);
  }

  // ----- Calls that may not or cannot act -----

  /** Without authority neither call changes anything, and both are refused. */
  lemma UnauthorisedDoesNothing(d: Disk, plan: Plan, schema: Schema, now: string, kill: nat)
    ensures Apply(d, plan, schema, false, now, kill) == (d, Refused(NotAuthorised))
    ensures Rollback(d, false, now, kill).0 == d && Rollback(d, false, now, kill).1.Refused?
    ensures Receipt in d.evidence && d.evidence[Receipt].ReceiptDoc? ==>
              Rollback(d, false, now, kill).1 == Refused(NotAuthorised)
  {
  }

  /** A shard that is neither image of the plan is left alone, by whatever call. */
  lemma StrangeShardIsRefused(d: Disk, plan: Plan, schema: Schema, authorised: bool, now: string, kill: nat)
    requires d.shard != Some(plan.source.raw) && d.shard != Some(plan.repaired.raw)
    ensures Apply(d, plan, schema, authorised, now, kill).0 == d
    ensures Apply(d, plan, schema, authorised, now, kill).1.Refused?
    ensures SoundEvidence(d.evidence, plan) ==>
              Rollback(d, authorised, now, kill).0 == d && Rollback(d, authorised, now, kill).1.Refused?
  {
    if d.shard.Some? { assert Sha(d.shard.value) != plan.source && Sha(d.shard.value) != plan.repaired; }
  }

  /** The receipt that a completed call returns is the one on disk, for this plan. */
  lemma ReceiptIsTold(d: Disk, plan: Plan, schema: Schema, now: string, kill: nat)
    requires SoundEvidence(d.evidence, plan) && Ordered(plan.targets)
    ensures var (d', outcome) := Apply(d, plan, schema, true, now, kill);
            outcome.Completed? ==>
              && Receipt in d'.evidence && outcome.receipt == d'.evidence[Receipt]
              && outcome.receipt == if Receipt in d.evidence then d.evidence[Receipt] else ReceiptDoc(plan, now)
  {
    var p := ApplyProgram(d, plan, schema, true, now);
    if p.Steps? && Receipt !in d.evidence {
      ApplyIsLegal(d, plan, schema, true, now);
      LegalStepsRun(d, plan, p.steps, kill);
      assert p.steps[|p.steps| - 1] == Publish(Receipt, ReceiptDoc(plan, now));
      if kill >= |p.steps| { LastStepIsDone(d, p.steps, kill); }
    }
  }

  lemma {:induction false} LastStepIsDone(d: Disk, steps: seq<Step>, kill: nat)
    requires steps != [] && steps[|steps| - 1].Publish? && Execute(d, steps, kill).1 == Finished
    ensures var last, d' := steps[|steps| - 1], Execute(d, steps, kill).0;
            last.name in d'.evidence && d'.evidence[last.name] == last.artifact
    decreases |steps|
  {
    var rest, d1 := steps[1..], Perform(d, steps[0]);
    if rest == [] {
      assert Execute(d, steps, kill).0 == d1;
    } else {
      assert rest[|rest| - 1] == steps[|steps| - 1];
      LastStepIsDone(d1, rest, kill - 1);
    }
  }

  /**
    An apply gets past its checks exactly when it is authorised and finds its own receipt
    over the repaired image, or, before there is a receipt, the source with a valid
    repair to the planned image, or the repaired image with all its evidence intact and
    clean.
  */
  lemma ApplyIsAdmittedExactly(d: Disk, plan: Plan, schema: Schema, authorised: bool, now: string)
    ensures ApplyProgram(d, plan, schema, authorised, now).Steps? <==>
            && authorised && d.shard.Some?
            && if Receipt in d.evidence then
                 d.evidence[Receipt].ReceiptDoc? && d.evidence[Receipt].plan == plan
                 && d.shard == Some(plan.repaired.raw)
               else if d.shard == Some(plan.source.raw) then
                 Repairable(SplitLines(plan.source.raw), plan.targets, schema)
                 && Join(Survivors(SplitLines(plan.source.raw), plan.targets)) == plan.repaired.raw
               else
                 && d.shard == Some(plan.repaired.raw) && Clean(plan.repaired.raw, schema)
                 && Intent in d.evidence && d.evidence[Intent] == IntentDoc(plan)
                 && Original in d.evidence && d.evidence[Original] == Raw(plan.source.raw)
                 && forall i :: 0 <= i < |plan.targets| ==>
                      RejectedLine(plan.targets[i].number) in d.evidence
                      && d.evidence[RejectedLine(plan.targets[i].number)] == Raw(plan.targets[i].sha.raw)
  {
    if d.shard.Some? {
      assert Sha(d.shard.value) == plan.source <==> d.shard == Some(plan.source.raw);
      assert Sha(d.shard.value) == plan.repaired <==> d.shard == Some(plan.repaired.raw);
    }
    RowsMatchExactly(d.evidence, plan.targets);
  }

  lemma RowsMatchExactly(ev: Evidence, targets: seq<Target>)
    ensures RowsMatch(ev, targets) <==>
            forall i :: 0 <= i < |targets| ==>
              RejectedLine(targets[i].number) in ev
              && ev[RejectedLine(targets[i].number)] == Raw(targets[i].sha.raw)
  {
    forall a: Artifact, t: Target ensures (a.Raw? && Sha(a.bytes) == t.sha) <==> a == Raw(t.sha.raw) {
    }
  }

  /**
    A rollback gets past its checks exactly when it is authorised, there is a receipt, and
    the shard is the source with a rollback on record or the repaired image without one.
  */
  lemma RollbackIsAdmittedExactly(d: Disk, authorised: bool, now: string)
    ensures RollbackProgram(d, authorised, now).Steps? <==>
            && authorised && d.shard.Some? && Receipt in d.evidence && d.evidence[Receipt].ReceiptDoc?
            && var plan := d.evidence[Receipt].plan;
               if RollbackReceipt in d.evidence then d.shard == Some(plan.source.raw)
               else
                 && Original in d.evidence && d.evidence[Original] == Raw(plan.source.raw)
                 && (d.shard == Some(plan.repaired.raw)
                     || (d.shard == Some(plan.source.raw) && RollbackIntent in d.evidence
                         && d.evidence[RollbackIntent] == RollbackIntentDoc(plan)))
  {
    if d.shard.Some? && Receipt in d.evidence && d.evidence[Receipt].ReceiptDoc? {
      var plan := d.evidence[Receipt].plan;
      assert Sha(d.shard.value) == plan.source <==> d.shard == Some(plan.source.raw);
      assert Sha(d.shard.value) == plan.repaired <==> d.shard == Some(plan.repaired.raw);
    }
  }

  // ----- The store that takes the steps -----

  class RecoveryStore {
    var shard: Option<Bytes>
    var evidence: Evidence

    ghost function View(): Disk
      reads this
    {
      Disk(shard, evidence)
    }

    constructor (shard: Option<Bytes>)
      ensures View() == Disk(shard, map[])
    {
      this.shard, evidence := shard, map[];
    }

    /** Takes durable steps one by one until one fails or the process is killed. */
    method Take(steps: seq<Step>, receipt: Artifact, kill: nat) returns (outcome: Outcome)
      modifies this
      ensures (View(), outcome) == Carry(old(View()), Steps(steps, receipt), kill)
    {
      var i := 0;
      while i < |steps|
        invariant 0 <= i <= |steps| && i <= kill
        invariant Execute(old(View()), steps, kill) == Execute(View(), steps[i..], kill - i)
        decreases |steps| - i
      {
        if i == kill {
          return Killed;
        }
        var s := steps[i];
        assert steps[i..][0] == s && steps[i..][1..] == steps[i + 1..];
        match s {
          case Publish(name, artifact) =>
            if name in evidence && evidence[name] != artifact {
              return Refused(ArtifactConflict);
            }
            evidence := evidence[name := artifact];
          case Replace(expected, bytes) =>
            if Sha(if shard.Some? then shard.value else []) != expected {
              return Refused(ShardChanged);
            }
            shard := Some(bytes);
        }
        i := i + 1;
      }
      outcome := Completed(receipt);
    }

    method ApplyRecovery(plan: Plan, schema: Schema, authorised: bool, now: string,
                         kill: nat) returns (outcome: Outcome)
      requires Ordered(plan.targets)
      modifies this
      ensures (View(), outcome) == Apply(old(View()), plan, schema, authorised, now, kill)
      ensures SoundEvidence(old(evidence), plan) ==> SoundEvidence(evidence, plan) && Moves(old(View()), View(), plan)
    {
      ghost var d := View();
      if SoundEvidence(evidence, plan) { ApplyIsSafe(d, plan, schema, authorised, now, kill); }
      if !authorised { return Refused(NotAuthorised); }
      if shard.None? { return Refused(ShardAbsent); }
      var current := Sha(shard.value);
      if Receipt in evidence {
        if !evidence[Receipt].ReceiptDoc? || evidence[Receipt].plan != plan || current != plan.repaired {
          return Refused(CompletedConflict);
        }
        outcome := Take([], evidence[Receipt], kill);
      } else if current == plan.source {
        var r := RepairTargets(SplitLines(shard.value), plan.targets, schema);
        if r.Failure? { return Refused(Unrepairable); }
        if Sha(r.value.image) != plan.repaired { return Refused(RepairMismatch); }
        var done := ReceiptDoc(plan, now);
        var steps := [Publish(Original, Raw(shard.value))] + RejectedSteps(plan.targets, r.value.rejected)
                     + [Publish(Intent, IntentDoc(plan)), Replace(plan.source, r.value.image), Publish(Receipt, done)];
        outcome := Take(steps, done, kill);
      } else if current == plan.repaired {
        if Intent !in evidence { return Refused(NoIntent); }
        if evidence[Intent] != IntentDoc(plan) { return Refused(IntentMismatch); }
        if !OriginalMatches(evidence, plan.source) || !RowsMatch(evidence, plan.targets) {
          return Refused(EvidenceMismatch);
        }
        if !Clean(shard.value, schema) { return Refused(NotClean); }
        outcome := Take([Publish(Receipt, ReceiptDoc(plan, now))], ReceiptDoc(plan, now), kill);
      } else {
        return Refused(ShardChanged);
      }
    }

    method RollbackRecovery(authorised: bool, now: string, kill: nat) returns (outcome: Outcome)
      modifies this
      ensures (View(), outcome) == Rollback(old(View()), authorised, now, kill)
    {
      if Receipt !in evidence || !evidence[Receipt].ReceiptDoc? { return Refused(NoReceipt); }
      if !authorised { return Refused(NotAuthorised); }
      if shard.None? { return Refused(ShardAbsent); }
      var plan, current := evidence[Receipt].plan, Sha(shard.value);
      var done := RollbackReceiptDoc(plan, now);
      if RollbackReceipt in evidence {
        if current != plan.source { return Refused(InterveningChange); }
        outcome := Take([], evidence[RollbackReceipt], kill);
        return;
      }
      if !OriginalMatches(evidence, plan.source) { return Refused(EvidenceMismatch); }
      if current == plan.repaired {
        outcome := Take([Publish(RollbackIntent, RollbackIntentDoc(plan)),
                         Replace(plan.repaired, evidence[Original].bytes), Publish(RollbackReceipt, done)], done, kill);
      } else if current == plan.source {
        if RollbackIntent !in evidence { return Refused(NoRollbackIntent); }
        if evidence[RollbackIntent] != RollbackIntentDoc(plan) { return Refused(IntentMismatch); }
        outcome := Take([Publish(RollbackReceipt, done)], done, kill);
      } else {
        return Refused(InterveningChange);
      }
    }
  }
}
