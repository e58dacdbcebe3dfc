/**
  Ownership of a card over whole event runs: how long a claim is fenced, what a
  void ends, and how releases are accounted for.
*/
module Ownership {
  import opened Wrappers
  import Ordering
  import opened CardFold

  // ----- The fence around a claim -----

  /** Agent `a` holds the card under claim revision `rev`. */
  predicate Fenced(c: CardState, a: string, rev: string) {
    a != "" && rev != "" && !c.voided
    && c.owner == Some(a) && c.revision == Some(rev) && Active(c.status)
  }

  /**
    The events that end the claim (a, rev). A claim event that names no owner is
    one of them: the fold only treats a claim as a rival when it names an owner.
  */
  predicate Breaks(e: Event, a: string, rev: string) {
    match e.action
    case Void => true
    case Assign => true
    case Unassign => true
    case Complete => true
    case ReleaseClaim => e.releasedOwner == Some(a) && e.expectedRevision == Some(rev)
    case Claim => !Truthy(e.owner) || (e.owner == Some(a) && ClaimedRevision(e) != Some(rev))
    case Move => ParseColumn(e.column) == Some(Backlog) || ParseColumn(e.column) == Some(Done)
    case Reopen => ParseColumn(e.column) == Some(Backlog) || ParseColumn(e.column) == Some(Done)
    case _ => false
  }

  /** A claim survives an event exactly when the event is not one of these. */
  lemma FenceStep(c: CardState, e: Event, a: string, rev: string)
    requires Fenced(c, a, rev)
    ensures Fenced(Step(c, e), a, rev) <==> !Breaks(e, a, rev)
  {
    if e.action == Claim {
      FenceClaim(c, e, a, rev);
    } else if e.action == ReleaseClaim {
      FenceRelease(c, e, a, rev);
    } else {
      FenceOther(c, e, a, rev);
    }
  }

  lemma FenceClaim(c: CardState, e: Event, a: string, rev: string)
    requires Fenced(c, a, rev) && e.action == Claim
    ensures Fenced(Step(c, e), a, rev) <==> !Breaks(e, a, rev)
  {
  }

  lemma FenceRelease(c: CardState, e: Event, a: string, rev: string)
    requires Fenced(c, a, rev) && e.action == ReleaseClaim
    ensures Fenced(Step(c, e), a, rev) <==> !Breaks(e, a, rev)
  {
  }

  lemma FenceOther(c: CardState, e: Event, a: string, rev: string)
    requires Fenced(c, a, rev) && e.action != Claim && e.action != ReleaseClaim
    ensures Fenced(Step(c, e), a, rev) <==> !Breaks(e, a, rev)
  {
  }

  /** The claim holds after every prefix of the run. */
  ghost predicate FencedThroughout(c: CardState, es: seq<Event>, a: string, rev: string) {
    forall k :: 0 <= k <= |es| ==> Fenced(FoldEvents(c, es[..k]), a, rev)
  }

  lemma PrefixStep(c: CardState, es: seq<Event>, k: nat)
    requires k < |es|
    ensures FoldEvents(c, es[..k + 1]) == Step(FoldEvents(c, es[..k]), es[k])
  {
    assert es[..k + 1] == es[..k] + [es[k]];
    FoldSnoc(c, es[..k], es[k]);
  }

  lemma {:induction false} FencedPrefix(c: CardState, es: seq<Event>, a: string, rev: string, k: nat)
    requires Fenced(c, a, rev) && k <= |es|
    requires forall i :: 0 <= i < k ==> !Breaks(es[i], a, rev)
    ensures Fenced(FoldEvents(c, es[..k]), a, rev)
  {
    if k == 0 {
      assert es[..0] == [];
    } else {
      FencedPrefix(c, es, a, rev, k - 1);
      PrefixStep(c, es, k - 1);
      FenceStep(FoldEvents(c, es[..k - 1]), es[k - 1], a, rev);
    }
  }

  /**
    Over any run, however many rival claims and stale releases it holds, the
    claim stands throughout if and only if no event of the run breaks it.
  */
  lemma FenceExactly(c: CardState, es: seq<Event>, a: string, rev: string)
    requires Fenced(c, a, rev)
    ensures FencedThroughout(c, es, a, rev) <==> forall i :: 0 <= i < |es| ==> !Breaks(es[i], a, rev)
  {
    if forall i :: 0 <= i < |es| ==> !Breaks(es[i], a, rev) {
      forall k | 0 <= k <= |es| ensures Fenced(FoldEvents(c, es[..k]), a, rev) {
        FencedPrefix(c, es, a, rev, k);
      }
    } else {
      var i :| 0 <= i < |es| && Breaks(es[i], a, rev);
      if FencedThroughout(c, es, a, rev) {
        assert Fenced(FoldEvents(c, es[..i]), a, rev) && Fenced(FoldEvents(c, es[..i + 1]), a, rev);
        PrefixStep(c, es, i);
        FenceStep(FoldEvents(c, es[..i]), es[i], a, rev);
        assert false;
      }
    }
  }

  /**
    The fence is not closed by the listed lifecycle events alone: a claim event
    without an owner takes a fenced card from its owner.
  */
  lemma OwnerlessClaimBreaksTheFence(c: CardState, e: Event, a: string, rev: string)
    requires Fenced(c, a, rev) && e.action == Claim && e.owner == None
    ensures Step(c, e).owner == None && Step(c, e).status == Doing && Step(c, e).conflicts == c.conflicts
  {
  }

  // ----- A void is final -----

  /** Holds of every card a fold can produce. */
  predicate VoidedIsUnowned(c: CardState) {
    c.voided ==> c.archived && c.owner == None && c.revision == None
  }

  lemma {:induction false} FoldedVoidedIsUnowned(c: CardState, es: seq<Event>)
    requires VoidedIsUnowned(c)
    ensures VoidedIsUnowned(FoldEvents(c, es))
    decreases |es|
  {
    if es != [] { FoldedVoidedIsUnowned(Step(c, es[0]), es[1..]); }
  }

  lemma VoidedStep(c: CardState, e: Event)
    requires c.voided && c.archived && c.owner == None && c.revision == None
    ensures var d := Step(c, e);
            && d.voided && d.archived && d.owner == None && d.revision == None
            && d.status == c.status && d.order == c.order
            && d.conflicts == c.conflicts && d.releaseConflicts == c.releaseConflicts
  {
  }

  lemma {:induction false} VoidedRun(c: CardState, es: seq<Event>)
    requires c.voided && c.archived && c.owner == None && c.revision == None
    ensures var d := FoldEvents(c, es);
            && d.voided && d.archived && d.owner == None && d.revision == None
            && d.status == c.status && d.order == c.order
            && d.conflicts == c.conflicts && d.releaseConflicts == c.releaseConflicts
    decreases |es|
  {
    if es != [] {
      VoidedStep(c, es[0]);
      VoidedRun(Step(c, es[0]), es[1..]);
    }
  }

  /**
    After the first void in the order, no later event restores an owner,
    un-archives the card or moves it.
  */
  lemma VoidIsTerminal(c: CardState, before: seq<Event>, void_: Event, after: seq<Event>)
    requires void_.action == Void
    ensures var then_ := FoldEvents(c, before);
            var end := FoldEvents(c, before + [void_] + after);
            && end.voided && end.archived && end.owner == None && end.revision == None
            && end.status == then_.status && end.order == then_.order
  {
    FoldSnoc(c, before, void_);
    FoldConcat(c, before + [void_], after);
    VoidedRun(FoldEvents(c, before + [void_]), after);
  }

  // ----- Releases -----

  datatype Precondition = Revision(value: string) | AlreadyReleased | Refused

  function OwnedBy(conflicts: seq<Conflict>, owner: string): seq<Conflict> {
    Ordering.Filter(conflicts, (k: Conflict) => k.owner == Some(owner))
  }

  /** `current_claim_precondition`: the revision a release of `owner` must quote. */
  function ClaimPrecondition(c: CardState, log: seq<Event>, owner: string): Precondition {
    if c.owner == Some(owner) then
      if Truthy(c.revision) then Revision(c.revision.value) else Refused
    else
      var mine := OwnedBy(c.conflicts, owner);
      if |mine| > 1 then Refused
      else if |mine| == 1 then
        if Truthy(mine[0].claimRevision) && Truthy(mine[0].existingRevision)
           && mine[0].existingOwner == c.owner && mine[0].existingRevision == c.revision
        then Revision(mine[0].claimRevision.value)
        else Refused
      else if c.owner == None && c.status == Backlog
              && exists e :: e in log && e.action == ReleaseClaim && e.releasedOwner == Some(owner)
      then AlreadyReleased
      else Refused
  }

  /** `_release_transition_is_applied`, given that the event itself is durable. */
  predicate ReleaseIsApplied(before: CardState, after: CardState, owner: string, revision: string) {
    if before.owner == Some(owner) && before.revision == Some(revision) then
      after.owner == None && after.status == Backlog && after.revision == None
    else
      var mine := (k: Conflict) => k.owner == Some(owner) && k.claimRevision == Some(revision);
      var others := (k: Conflict) => !(k.owner == Some(owner) && k.claimRevision == Some(revision));
      && |Ordering.Filter(before.conflicts, mine)| == 1
      && after.owner == before.owner && after.status == before.status && after.revision == before.revision
      && after.conflicts == Ordering.Filter(before.conflicts, others)
  }

  predicate Made(k: Conflict, owner: string, revision: string) {
    k.owner == Some(owner) && k.claimRevision == Some(revision)
  }

  /** The record at `i` is the only one of `owner` under `revision`. */
  ghost predicate OnlyRecord(conflicts: seq<Conflict>, i: nat, owner: string, revision: string)
    requires i < |conflicts|
  {
    && Made(conflicts[i], owner, revision)
    && forall j :: 0 <= j < |conflicts| && Made(conflicts[j], owner, revision) ==> j == i
  }

  /**
    The check accepts a release exactly when it freed the card of its holder, or dropped
    the agent's only record under that revision and changed nothing of the holder's.
  */
  lemma AppliedExactly(before: CardState, after: CardState, owner: string, revision: string)
    ensures ReleaseIsApplied(before, after, owner, revision) <==>
            if before.owner == Some(owner) && before.revision == Some(revision) then
              after.owner == None && after.status == Backlog && after.revision == None
            else
              && after.owner == before.owner && after.status == before.status && after.revision == before.revision
              && exists i :: 0 <= i < |before.conflicts| && OnlyRecord(before.conflicts, i, owner, revision)
                             && after.conflicts == before.conflicts[..i] + before.conflicts[i + 1..]
  {
    var conflicts := before.conflicts;
    var others := (k: Conflict) => !(k.owner == Some(owner) && k.claimRevision == Some(revision));
    OnlyOneIs(conflicts, owner, revision);
    forall i | 0 <= i < |conflicts| && OnlyRecord(conflicts, i, owner, revision)
      ensures Ordering.Filter(conflicts, others) == conflicts[..i] + conflicts[i + 1..]
    {
      assert conflicts == conflicts[..i] + ([conflicts[i]] + conflicts[i + 1..]);
      OthersAre(conflicts[..i], conflicts[i], conflicts[i + 1..], others);
    }
  }

  lemma {:induction false} OnlyOneIs(conflicts: seq<Conflict>, owner: string, revision: string)
    ensures var mine := Ordering.Filter(conflicts, (k: Conflict) => k.owner == Some(owner)
                                                                    && k.claimRevision == Some(revision));
            && (|mine| == 1 <==> exists i :: 0 <= i < |conflicts| && OnlyRecord(conflicts, i, owner, revision))
            && (mine == [] <==> forall i :: 0 <= i < |conflicts| ==>
                  !Made(conflicts[i], owner, revision))
  {
    if conflicts != [] {
      var head, rest := conflicts[0], conflicts[1..];
      OnlyOneIs(rest, owner, revision);
      assert forall i :: 0 <= i < |rest| ==> rest[i] == conflicts[i + 1];
      if Made(head, owner, revision) {
        if forall i :: 0 <= i < |rest| ==> !Made(rest[i], owner, revision) {
          forall j | 1 <= j < |conflicts| ensures conflicts[j] == rest[j - 1] {
          }
          assert OnlyRecord(conflicts, 0, owner, revision);
        }
        if i :| 0 <= i < |conflicts| && OnlyRecord(conflicts, i, owner, revision) {
          assert i == 0;
        }
      } else {
        if i :| 0 <= i < |rest| && OnlyRecord(rest, i, owner, revision) {
          forall j | 0 <= j < |conflicts| && Made(conflicts[j], owner, revision) ensures j == i + 1 {
            assert conflicts[j] == rest[j - 1];
          }
          assert OnlyRecord(conflicts, i + 1, owner, revision);
        }
        if i :| 0 <= i < |conflicts| && OnlyRecord(conflicts, i, owner, revision) {
          assert OnlyRecord(rest, i - 1, owner, revision);
        }
      }
    }
  }

  lemma OthersAre(front: seq<Conflict>, k: Conflict, back: seq<Conflict>, others: Conflict -> bool)
    requires (forall j :: 0 <= j < |front| ==> others(front[j])) && (forall j :: 0 <= j < |back| ==> others(back[j]))
    requires !others(k)
    ensures Ordering.Filter(front + ([k] + back), others) == front + back
  {
    AllPass(front, others);
    AllPass(back, others);
    Ordering.FilterConcat(front, [k] + back, others);
    FilterSkips(k, back, others);
  }

  lemma FilterSkips(k: Conflict, s: seq<Conflict>, keep: Conflict -> bool)
    requires !keep(k)
    ensures Ordering.Filter([k] + s, keep) == Ordering.Filter(s, keep)
  {
    assert ([k] + s)[1..] == s;
  }

  lemma {:induction false} AllPass(s: seq<Conflict>, keep: Conflict -> bool)
    requires forall k :: 0 <= k < |s| ==> keep(s[k])
    ensures Ordering.Filter(s, keep) == s
  {
    if s != [] { AllPass(s[1..], keep); }
  }

  predicate ReleaseOf(e: Event, owner: string, revision: string) {
    e.action == ReleaseClaim && e.releasedOwner == Some(owner) && e.expectedRevision == Some(revision)
  }

  lemma {:induction false} FilterTwice(s: seq<Conflict>, p: Conflict -> bool, q: Conflict -> bool)
    requires forall k :: q(k) ==> p(k)
    ensures Ordering.Filter(Ordering.Filter(s, p), q) == Ordering.Filter(s, q)
  {
    if s != [] {
      FilterTwice(s[1..], p, q);
      var rest := Ordering.Filter(s[1..], p);
      if p(s[0]) {
        assert Ordering.Filter(s, p) == [s[0]] + rest && ([s[0]] + rest)[1..] == rest;
      } else {
        assert Ordering.Filter(s, p) == rest;
      }
    }
  }

  lemma {:induction false} FilterSizes(s: seq<Conflict>, p: Conflict -> bool, q: Conflict -> bool)
    requires forall k :: q(k) == !p(k)
    ensures |Ordering.Filter(s, p)| + |Ordering.Filter(s, q)| == |s|
  {
    if s != [] { FilterSizes(s[1..], p, q); }
  }

  /**
    If the precondition hands out a revision and that release is next in order,
    the fold releases exactly the current claim or exactly one conflict record,
    records no release conflict, and the caller's postcondition check agrees.
  */
  lemma ReleaseAgreement(c: CardState, log: seq<Event>, owner: string, revision: string, e: Event)
    requires owner != "" && VoidedIsUnowned(c)
    requires ClaimPrecondition(c, log, owner) == Revision(revision) && ReleaseOf(e, owner, revision)
    ensures ReleaseIsApplied(c, Step(c, e), owner, revision)
    ensures Step(c, e).releaseConflicts == c.releaseConflicts
    ensures if c.owner == Some(owner) then Step(c, e).conflicts == c.conflicts
            else |Step(c, e).conflicts| == |c.conflicts| - 1
  {
    if c.owner == Some(owner) {
      CurrentIsReleased(c, log, owner, revision, e);
    } else {
      ConflictIsReleased(c, log, owner, revision, e);
    }
  }

  lemma CurrentIsReleased(c: CardState, log: seq<Event>, owner: string, revision: string, e: Event)
    requires owner != "" && VoidedIsUnowned(c) && c.owner == Some(owner)
    requires ClaimPrecondition(c, log, owner) == Revision(revision) && ReleaseOf(e, owner, revision)
    ensures ReleaseIsApplied(c, Step(c, e), owner, revision)
    ensures Step(c, e).releaseConflicts == c.releaseConflicts && Step(c, e).conflicts == c.conflicts
  {
  }

  lemma ConflictIsReleased(c: CardState, log: seq<Event>, owner: string, revision: string, e: Event)
    requires owner != "" && VoidedIsUnowned(c) && c.owner != Some(owner)
    requires ClaimPrecondition(c, log, owner) == Revision(revision) && ReleaseOf(e, owner, revision)
    ensures ReleaseIsApplied(c, Step(c, e), owner, revision)
    ensures Step(c, e).releaseConflicts == c.releaseConflicts && |Step(c, e).conflicts| == |c.conflicts| - 1
  {
    var mine := OwnedBy(c.conflicts, owner);
    var p := (k: Conflict) => MatchesRelease(e, k);
    FilterTwice(c.conflicts, (k: Conflict) => k.owner == Some(owner), p);
    assert mine == [mine[0]] && mine[0] in mine;
    Ordering.FilterMember(c.conflicts, (k: Conflict) => k.owner == Some(owner), mine[0]);
    assert Ordering.Filter(mine, p) == [mine[0]] by { assert mine[1..] == []; }
    assert Matching(c.conflicts, e) == [mine[0]];
    Ordering.FilterAgree(c.conflicts, p, (k: Conflict) => k.owner == Some(owner) && k.claimRevision == Some(revision));
    Ordering.FilterAgree(c.conflicts, (k: Conflict) => !MatchesRelease(e, k),
                (k: Conflict) => !(k.owner == Some(owner) && k.claimRevision == Some(revision)));
    FilterSizes(c.conflicts, p, (k: Conflict) => !MatchesRelease(e, k));
  }

  /** The release of `owner` under `revision`, as the caller would write it. */
  function ReleaseEvent(e: Event, owner: string, revision: string): Event {
    e.(action := ReleaseClaim, releasedOwner := Some(owner), expectedRevision := Some(revision))
  }

  /**
    The precondition hands out a revision exactly when releasing under it would free the
    card, for its holder, or drop a conflict record, for an agent that has just one.
  */
  lemma PreconditionExactly(c: CardState, log: seq<Event>, owner: string, revision: string, e: Event)
    requires owner != "" && !c.voided
    ensures ClaimPrecondition(c, log, owner) == Revision(revision)
            <==> revision != ""
                 && var d := Step(c, ReleaseEvent(e, owner, revision));
                    if c.owner == Some(owner) then d.owner == None
                    else |OwnedBy(c.conflicts, owner)| == 1 && d.releaseConflicts == c.releaseConflicts
  {
    if c.owner == Some(owner) { HolderReleases(c, owner, revision, e); } else { RivalReleases(c, owner, revision, e); }
  }

  lemma HolderReleases(c: CardState, owner: string, revision: string, e: Event)
    requires owner != "" && !c.voided && c.owner == Some(owner)
    ensures Step(c, ReleaseEvent(e, owner, revision)).owner == None <==> revision != "" && c.revision == Some(revision)
  {
  }

  lemma RivalReleases(c: CardState, owner: string, revision: string, e: Event)
    requires owner != "" && !c.voided && c.owner != Some(owner)
    ensures var mine := OwnedBy(c.conflicts, owner);
            |mine| == 1 ==>
              (revision != ""
               && Step(c, ReleaseEvent(e, owner, revision)).releaseConflicts == c.releaseConflicts
               <==> mine[0].claimRevision == Some(revision) && revision != "" && Truthy(c.revision)
                    && mine[0].existingOwner == c.owner && mine[0].existingRevision == c.revision)
  {
    if |OwnedBy(c.conflicts, owner)| == 1 { MatchesMine(c.conflicts, owner, ReleaseEvent(e, owner, revision)); }
  }

  lemma MatchesMine(conflicts: seq<Conflict>, owner: string, release: Event)
    requires release.releasedOwner == Some(owner) && |OwnedBy(conflicts, owner)| == 1
    ensures var mine := OwnedBy(conflicts, owner);
            Matching(conflicts, release) == if mine[0].claimRevision == release.expectedRevision then [mine[0]] else []
  {
    var mine, p := OwnedBy(conflicts, owner), (k: Conflict) => MatchesRelease(release, k);
    FilterTwice(conflicts, (k: Conflict) => k.owner == Some(owner), p);
    assert mine == [mine[0]] && mine[1..] == [] && mine[0] in mine;
    Ordering.FilterMember(conflicts, (k: Conflict) => k.owner == Some(owner), mine[0]);
  }

  /** It reports a release as done exactly when the card is free and the log holds one by the agent. */
  lemma AlreadyReleasedExactly(c: CardState, log: seq<Event>, owner: string)
    requires owner != ""
    ensures ClaimPrecondition(c, log, owner) == AlreadyReleased
            <==> && c.owner == None && c.status == Backlog && (forall k :: k in c.conflicts ==> k.owner != Some(owner))
                 && exists e :: e in log && e.action == ReleaseClaim && e.releasedOwner == Some(owner)
  {
    var p := (k: Conflict) => k.owner == Some(owner);
    if OwnedBy(c.conflicts, owner) == [] {
      forall k | k in c.conflicts ensures k.owner != Some(owner) { Ordering.FilterMember(c.conflicts, p, k); }
    } else {
      Ordering.FilterMember(c.conflicts, p, OwnedBy(c.conflicts, owner)[0]);
    }
  }

  /**
    Retrying a completed release of the current claim is a safe no-op: unless the
    agent also left a conflict record, the precondition then reports it released.
  */
  lemma ReleaseRetryIsNoOp(c: CardState, log: seq<Event>, owner: string, revision: string, e: Event)
    requires owner != "" && VoidedIsUnowned(c) && c.owner == Some(owner)
    requires ClaimPrecondition(c, log, owner) == Revision(revision) && ReleaseOf(e, owner, revision)
    ensures ClaimPrecondition(Step(c, e), log + [e], owner) == AlreadyReleased
            <==> forall k :: k in c.conflicts ==> k.owner != Some(owner)
  {
    var d := Step(c, e);
    assert d.conflicts == c.conflicts && d.owner == None && d.status == Backlog;
    assert e in log + [e];
    var mine := OwnedBy(c.conflicts, owner);
    var p := (k: Conflict) => k.owner == Some(owner);
    if mine == [] {
      forall k | k in c.conflicts ensures k.owner != Some(owner) {
        Ordering.FilterMember(c.conflicts, p, k);
      }
    } else {
      assert mine[0] in mine;
      Ordering.FilterMember(c.conflicts, p, mine[0]);
    }
  }

  // ----- Every release is accounted for -----

  function Count(b: bool): nat { if b then 1 else 0 }

  function Releases(es: seq<Event>): nat {
    if es == [] then 0 else Count(es[0].action == ReleaseClaim) + Releases(es[1..])
  }

  /** Release events after which the card lost its owner. */
  function OwnersReleased(c: CardState, es: seq<Event>): nat
    decreases |es|
  {
    if es == [] then 0
    else Count(es[0].action == ReleaseClaim && Truthy(c.owner) && Step(c, es[0]).owner == None)
         + OwnersReleased(Step(c, es[0]), es[1..])
  }

  /** Release events after which exactly one conflict record was gone. */
  function ConflictsReleased(c: CardState, es: seq<Event>): nat
    decreases |es|
  {
    if es == [] then 0
    else Count(es[0].action == ReleaseClaim && |Step(c, es[0]).conflicts| == |c.conflicts| - 1)
         + ConflictsReleased(Step(c, es[0]), es[1..])
  }

  /** One release does exactly one of three things. */
  lemma ReleaseIsOneOfThree(c: CardState, e: Event)
    requires !c.voided && e.action == ReleaseClaim
    ensures var d := Step(c, e);
            Count(Truthy(c.owner) && d.owner == None) + Count(|d.conflicts| == |c.conflicts| - 1)
            + (|d.releaseConflicts| - |c.releaseConflicts|) == 1
  {
    if !ReleasesCurrent(c, e) && ReleasesConflict(c, e) {
      FilterSizes(c.conflicts, (k: Conflict) => MatchesRelease(e, k), (k: Conflict) => !MatchesRelease(e, k));
    }
  }

  lemma VoidComesFromVoid(c: CardState, e: Event)
    requires !c.voided && e.action != Void
    ensures !Step(c, e).voided
  {
  }

  lemma OthersReleaseNothing(c: CardState, e: Event)
    requires e.action != ReleaseClaim
    ensures Step(c, e).releaseConflicts == c.releaseConflicts
  {
  }

  /**
    Conservation: over any run without a void, release events equal owners
    released, plus conflict records released, plus release conflicts recorded.
  */
  lemma {:induction false} ReleasesAreConserved(c: CardState, es: seq<Event>)
    requires !c.voided && forall i :: 0 <= i < |es| ==> es[i].action != Void
    ensures Releases(es) == OwnersReleased(c, es) + ConflictsReleased(c, es)
                            + (|FoldEvents(c, es).releaseConflicts| - |c.releaseConflicts|)
    decreases |es|
  {
    if es != [] {
      var d := Step(c, es[0]);
      VoidComesFromVoid(c, es[0]);
      if es[0].action == ReleaseClaim {
        ReleaseIsOneOfThree(c, es[0]);
      } else {
        OthersReleaseNothing(c, es[0]);
      }
      ReleasesAreConserved(d, es[1..]);
    }
  }
}
