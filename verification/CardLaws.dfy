/**
  What a folded card reads, field by field, in terms of the run that led to it
  (`CardStore.fold`): every field holds what the last event that may set it said.
*/
module CardLaws {
  import opened Ordering
  import opened Sequences
  import opened Wrappers
  import opened CardFold
  import Runs

  /** The card that the event at `i` finds. */
  function Before(born: CardState, es: seq<Event>): nat -> CardState {
    (i: nat) => if i <= |es| then FoldEvents(born, es[..i]) else born
  }

  /** `now` is what the last event that may set the field said, or else what the card was born with. */
  ghost predicate LastWrite<V>(born: CardState, es: seq<Event>, w: (CardState, Event) -> Option<V>, start: V, now: V) {
    Runs.LastWrite(Before(born, es), es, w, start, now)
  }

  lemma LastWins<V>(born: CardState, es: seq<Event>, w: (CardState, Event) -> Option<V>, f: CardState -> V)
    requires forall d, e :: f(Step(d, e)) == if w(d, e).Some? then w(d, e).value else f(d)
    ensures LastWrite(born, es, w, f(born), f(FoldEvents(born, es)))
  {
    var before := Before(born, es);
    forall i | 0 <= i < |es|
      ensures f(before(i + 1)) == if w(before(i), es[i]).Some? then w(before(i), es[i]).value else f(before(i))
    {
      assert es[..i + 1] == es[..i] + [es[i]];
      FoldSnoc(born, es[..i], es[i]);
    }
    Runs.LastWins(before, es, w, f);
    assert es[..|es|] == es && es[..0] == [];
  }

  // ----- Who holds the card, and where -----

  /** The text by which an event names a column. */
  function ColumnText(c: Column): string {
    match c
    case Backlog => "backlog"
    case Ready => "ready"
    case Doing => "doing"
    case Review => "review"
    case Done => "done"
  }

  /** Exactly these texts are read as columns. */
  lemma ColumnsAreNamed(text: Option<string>, c: Column)
    ensures ParseColumn(text) == Some(c) <==> text == Some(ColumnText(c))
  {
  }

  /** A claim by one agent on a card in work that another holds. */
  predicate Contested(d: CardState, e: Event) {
    && e.owner.Some? && e.owner.value != "" && d.owner.Some? && d.owner.value != ""
    && e.owner != d.owner && d.status in {Ready, Doing, Review}
  }

  /** A release that quotes the card's owner and claim revision. */
  predicate QuotesHolder(d: CardState, e: Event) {
    && e.releasedOwner.Some? && e.releasedOwner.value != ""
    && e.expectedRevision.Some? && e.expectedRevision.value != ""
    && d.owner == e.releasedOwner && d.revision == e.expectedRevision
  }

  predicate Takes(d: CardState, e: Event) {
    e.action == Claim && !d.voided && !Contested(d, e)
  }

  predicate GivesBack(d: CardState, e: Event) {
    e.action == ReleaseClaim && !d.voided && QuotesHolder(d, e)
  }

  function ColumnSet(d: CardState, e: Event): Option<Column> {
    if d.voided then None
    else if e.action == Move || e.action == Reopen then ParseColumn(e.column)
    else if e.action == Complete then Some(Done)
    else if Takes(d, e) then Some(Doing)
    else if GivesBack(d, e) then Some(Backlog)
    else None
  }

  function HolderSet(d: CardState, e: Event): Option<Option<string>> {
    if e.action == Void then Some(None)
    else if d.voided then None
    else if e.action == Assign || Takes(d, e) then Some(e.owner)
    else if e.action == Unassign || e.action == Complete || GivesBack(d, e) then Some(None)
    else None
  }

  /** A claim is known by its own revision or by the id of its event. */
  function RevisionSet(d: CardState, e: Event): Option<Option<string>> {
    if Takes(d, e) then
      Some(if e.claimRevision.Some? && e.claimRevision.value != "" then e.claimRevision
           else if e.eventId.Some? && e.eventId.value != "" then e.eventId
           else None)
    else if HolderSet(d, e).Some? then Some(None)
    else None
  }

  function PlaceSet(d: CardState, e: Event): Option<int> {
    if e.action == Move && !d.voided then e.order else None
  }

  function ArchivedSet(d: CardState, e: Event): Option<bool> {
    if e.action == Archive || e.action == Void then Some(true)
    else if e.action == Reopen && !d.voided then Some(false)
    else None
  }

  function VoidedSet(d: CardState, e: Event): Option<bool> {
    if e.action == Void then Some(true) else None
  }

  lemma ColumnStep(d: CardState, e: Event)
    ensures Step(d, e).status == if ColumnSet(d, e).Some? then ColumnSet(d, e).value else d.status
  {
    if e.action == Claim || e.action == ReleaseClaim {
      ClaimColumn(d, e);
    } else if e.action == Move || e.action == Reopen || e.action == Complete {
      MoveColumn(d, e);
    } else {
      OtherColumn(d, e);
    }
  }

  lemma ClaimColumn(d: CardState, e: Event)
    requires e.action == Claim || e.action == ReleaseClaim
    ensures Step(d, e).status == if ColumnSet(d, e).Some? then ColumnSet(d, e).value else d.status
  {
  }

  lemma MoveColumn(d: CardState, e: Event)
    requires e.action == Move || e.action == Reopen || e.action == Complete
    ensures Step(d, e).status == if ColumnSet(d, e).Some? then ColumnSet(d, e).value else d.status
  {
  }

  lemma OtherColumn(d: CardState, e: Event)
    requires e.action !in {Claim, ReleaseClaim, Move, Reopen, Complete}
    ensures Step(d, e).status == d.status
  {
  }

  lemma OwnerStep(d: CardState, e: Event)
    ensures Step(d, e).owner == if HolderSet(d, e).Some? then HolderSet(d, e).value else d.owner
  {
  }

  lemma RevisionStep(d: CardState, e: Event)
    ensures Step(d, e).revision == if RevisionSet(d, e).Some? then RevisionSet(d, e).value else d.revision
  {
    if e.action == Claim && !d.voided {
      assert Contested(d, e) <==> RivalClaim(d, e);
    }
  }

  lemma PlaceStep(d: CardState, e: Event)
    ensures Step(d, e).order == if PlaceSet(d, e).Some? then PlaceSet(d, e).value else d.order
  {
  }

  lemma ArchivedStep(d: CardState, e: Event)
    ensures Step(d, e).archived == if ArchivedSet(d, e).Some? then ArchivedSet(d, e).value else d.archived
  {
  }

  lemma VoidedStep(d: CardState, e: Event)
    ensures Step(d, e).voided == if VoidedSet(d, e).Some? then VoidedSet(d, e).value else d.voided
  {
  }

  /** The column is the one that the last live event says, whatever came before. */
  lemma ColumnLaw(born: CardState, es: seq<Event>)
    ensures LastWrite(born, es, ColumnSet, born.status, FoldEvents(born, es).status)
  {
    var f := (c: CardState) => c.status;
    forall d, e ensures f(Step(d, e)) == if ColumnSet(d, e).Some? then ColumnSet(d, e).value else f(d) {
      ColumnStep(d, e);
    }
    LastWins(born, es, ColumnSet, f);
  }

  /** So are the owner and the claim's revision. */
  lemma HolderLaw(born: CardState, es: seq<Event>)
    ensures LastWrite(born, es, HolderSet, born.owner, FoldEvents(born, es).owner)
    ensures LastWrite(born, es, RevisionSet, born.revision, FoldEvents(born, es).revision)
  {
    var f, g := (c: CardState) => c.owner, (c: CardState) => c.revision;
    forall d, e ensures f(Step(d, e)) == (if HolderSet(d, e).Some? then HolderSet(d, e).value else f(d))
                ensures g(Step(d, e)) == (if RevisionSet(d, e).Some? then RevisionSet(d, e).value else g(d))
    {
      OwnerStep(d, e);
      RevisionStep(d, e);
    }
    LastWins(born, es, HolderSet, f);
    LastWins(born, es, RevisionSet, g);
  }

  lemma ShelfLaw(born: CardState, es: seq<Event>)
    ensures LastWrite(born, es, PlaceSet, born.order, FoldEvents(born, es).order)
    ensures LastWrite(born, es, ArchivedSet, born.archived, FoldEvents(born, es).archived)
    ensures LastWrite(born, es, VoidedSet, born.voided, FoldEvents(born, es).voided)
  {
    var f, g, h := (c: CardState) => c.order, (c: CardState) => c.archived, (c: CardState) => c.voided;
    forall d, e ensures f(Step(d, e)) == (if PlaceSet(d, e).Some? then PlaceSet(d, e).value else f(d))
                ensures g(Step(d, e)) == (if ArchivedSet(d, e).Some? then ArchivedSet(d, e).value else g(d))
                ensures h(Step(d, e)) == (if VoidedSet(d, e).Some? then VoidedSet(d, e).value else h(d))
    {
      PlaceStep(d, e);
      ArchivedStep(d, e);
      VoidedStep(d, e);
    }
    LastWins(born, es, PlaceSet, f);
    LastWins(born, es, ArchivedSet, g);
    LastWins(born, es, VoidedSet, h);
  }

  // ----- What the card says -----

  /** A text that is set only when it is not empty. */
  function NotEmpty(s: Option<string>): Option<string> {
    if s == Some("") then None else s
  }

  function PrioritySet(d: CardState, e: Event): Option<string> {
    if e.action == SetPriority then NotEmpty(e.priority) else None
  }

  function SwimlaneSet(d: CardState, e: Event): Option<string> {
    if e.action == SetSwimlane then NotEmpty(e.swimlane) else None
  }

  function TitleSet(d: CardState, e: Event): Option<string> {
    if e.action == Describe then e.title else None
  }

  function DescriptionSet(d: CardState, e: Event): Option<string> {
    if e.action == Describe then e.description else None
  }

  function UpdatedSet(d: CardState, e: Event): Option<string> {
    Some(e.key.ts)
  }

  function Link(key: string): (CardState, Event) -> Option<Option<Option<string>>> {
    (d: CardState, e: Event) => if e.action == SetLink && e.linkKey == Some(key) then Some(Some(e.linkValue)) else None
  }

  function LinkOf(c: CardState, key: string): Option<Option<string>> {
    if key in c.links then Some(c.links[key]) else None
  }

  lemma PriorityStep(d: CardState, e: Event)
    ensures Step(d, e).priority == if PrioritySet(d, e).Some? then PrioritySet(d, e).value else d.priority
  {
  }

  lemma SwimlaneStep(d: CardState, e: Event)
    ensures Step(d, e).swimlane == if SwimlaneSet(d, e).Some? then SwimlaneSet(d, e).value else d.swimlane
  {
  }

  lemma TitleStep(d: CardState, e: Event)
    ensures Step(d, e).title == if TitleSet(d, e).Some? then TitleSet(d, e).value else d.title
  {
  }

  lemma DescriptionStep(d: CardState, e: Event)
    ensures Step(d, e).description == if DescriptionSet(d, e).Some? then DescriptionSet(d, e).value else d.description
  {
  }

  lemma TextLaw(born: CardState, es: seq<Event>)
    ensures LastWrite(born, es, PrioritySet, born.priority, FoldEvents(born, es).priority)
    ensures LastWrite(born, es, SwimlaneSet, born.swimlane, FoldEvents(born, es).swimlane)
  {
    var f, g := (c: CardState) => c.priority, (c: CardState) => c.swimlane;
    forall d, e ensures f(Step(d, e)) == (if PrioritySet(d, e).Some? then PrioritySet(d, e).value else f(d))
                ensures g(Step(d, e)) == (if SwimlaneSet(d, e).Some? then SwimlaneSet(d, e).value else g(d))
    {
      PriorityStep(d, e);
      SwimlaneStep(d, e);
    }
    LastWins(born, es, PrioritySet, f);
    LastWins(born, es, SwimlaneSet, g);
  }

  lemma DescribeLaw(born: CardState, es: seq<Event>)
    ensures LastWrite(born, es, TitleSet, born.title, FoldEvents(born, es).title)
    ensures LastWrite(born, es, DescriptionSet, born.description, FoldEvents(born, es).description)
    ensures LastWrite(born, es, UpdatedSet, born.updatedAt, FoldEvents(born, es).updatedAt)
  {
    var f, g, h := (c: CardState) => c.title, (c: CardState) => c.description, (c: CardState) => c.updatedAt;
    forall d, e ensures f(Step(d, e)) == (if TitleSet(d, e).Some? then TitleSet(d, e).value else f(d))
                ensures g(Step(d, e)) == (if DescriptionSet(d, e).Some? then DescriptionSet(d, e).value else g(d))
                ensures h(Step(d, e)) == (if UpdatedSet(d, e).Some? then UpdatedSet(d, e).value else h(d))
    {
      TitleStep(d, e);
      DescriptionStep(d, e);
    }
    LastWins(born, es, TitleSet, f);
    LastWins(born, es, DescriptionSet, g);
    LastWins(born, es, UpdatedSet, h);
  }

  lemma LinkStep(d: CardState, e: Event, key: string)
    ensures LinkOf(Step(d, e), key) == if Link(key)(d, e).Some? then Link(key)(d, e).value else LinkOf(d, key)
  {
  }

  lemma LinkLaw(born: CardState, es: seq<Event>, key: string)
    ensures LastWrite(born, es, Link(key), LinkOf(born, key), LinkOf(FoldEvents(born, es), key))
  {
    var f := (c: CardState) => LinkOf(c, key);
    forall d, e ensures f(Step(d, e)) == if Link(key)(d, e).Some? then Link(key)(d, e).value else f(d) {
      LinkStep(d, e, key);
    }
    LastWins(born, es, Link(key), f);
  }

  // ----- Conflicts -----

  /** The record of a claim that lost: both owners and both revisions. */
  function RecordOf(d: CardState, e: Event): Conflict {
    Conflict(e.eventId, e.owner, e.claimRevision, d.owner, d.revision)
  }

  predicate Quotes(e: Event, k: Conflict) {
    k.owner == e.releasedOwner && k.claimRevision == e.expectedRevision
  }

  /** A release that quotes exactly one record, made against the present holder. */
  ghost predicate Resolves(d: CardState, e: Event) {
    && e.action == ReleaseClaim && !d.voided && !QuotesHolder(d, e)
    && e.releasedOwner.Some? && e.releasedOwner.value != ""
    && e.expectedRevision.Some? && e.expectedRevision.value != ""
    && d.revision.Some? && d.revision.value != ""
    && exists i :: 0 <= i < |d.conflicts| && QuotesOnly(e, d.conflicts, i)
         && d.owner == d.conflicts[i].existingOwner && d.revision == d.conflicts[i].existingRevision
  }

  ghost predicate QuotesOnly(e: Event, conflicts: seq<Conflict>, i: nat)
    requires i < |conflicts|
  {
    Quotes(e, conflicts[i]) && forall j :: 0 <= j < |conflicts| && Quotes(e, conflicts[j]) ==> j == i
  }

  /** A claim that takes a free card from the backlog. */
  predicate StartsAfresh(d: CardState, e: Event) {
    Takes(d, e) && d.owner == None && d.status == Backlog && e.owner.Some? && e.owner.value != ""
  }

  predicate Loses(d: CardState, e: Event) {
    e.action == Claim && !d.voided && Contested(d, e)
  }

  /** A claim that loses writes its record; a fresh claim drops all, and a release the one it quotes. */
  ghost function Kept(k: Conflict): (CardState, Event) -> Option<bool> {
    (d: CardState, e: Event) =>
      if Loses(d, e) && k == RecordOf(d, e) then Some(true)
      else if StartsAfresh(d, e) || (Resolves(d, e) && Quotes(e, k)) then Some(false)
      else None
  }

  lemma {:induction false} MatchesAre(conflicts: seq<Conflict>, e: Event)
    ensures Matching(conflicts, e) == [] <==> forall i :: 0 <= i < |conflicts| ==> !Quotes(e, conflicts[i])
    ensures |Matching(conflicts, e)| == 1 ==> exists i :: 0 <= i < |conflicts| && QuotesOnly(e, conflicts, i)
    ensures forall i :: 0 <= i < |conflicts| && QuotesOnly(e, conflicts, i) ==> Matching(conflicts, e) == [conflicts[i]]
  {
    if conflicts != [] {
      var head, rest, matching := conflicts[0], conflicts[1..], Matching(conflicts, e);
      MatchesAre(rest, e);
      assert forall i :: 0 <= i < |rest| ==> rest[i] == conflicts[i + 1];
      assert matching == if Quotes(e, head) then [head] + Matching(rest, e) else Matching(rest, e);
      if Quotes(e, head) {
        if |matching| == 1 {
          assert Matching(rest, e) == [];
          forall j | 1 <= j < |conflicts| ensures !Quotes(e, conflicts[j]) { assert !Quotes(e, rest[j - 1]); }
          assert QuotesOnly(e, conflicts, 0);
        }
      } else {
        if |matching| == 1 {
          var i :| 0 <= i < |rest| && QuotesOnly(e, rest, i);
          forall j | 0 <= j < |conflicts| && Quotes(e, conflicts[j]) ensures j == i + 1 {
            assert Quotes(e, rest[j - 1]);
          }
          assert QuotesOnly(e, conflicts, i + 1);
        }
      }
      forall i | 0 <= i < |conflicts| && QuotesOnly(e, conflicts, i) ensures matching == [conflicts[i]] {
        OneInRest(conflicts, e, i);
      }
    }
  }

  /** The only record quoted is the head, or the only one of the rest. */
  lemma OneInRest(conflicts: seq<Conflict>, e: Event, i: nat)
    requires i < |conflicts| && QuotesOnly(e, conflicts, i)
    requires var rest := conflicts[1..];
             && (Matching(rest, e) == [] <==> forall j :: 0 <= j < |rest| ==> !Quotes(e, rest[j]))
             && forall j :: 0 <= j < |rest| && QuotesOnly(e, rest, j) ==> Matching(rest, e) == [rest[j]]
    ensures Matching(conflicts, e) == [conflicts[i]]
  {
    var rest := conflicts[1..];
    assert forall j :: 0 <= j < |rest| ==> rest[j] == conflicts[j + 1];
    if i == 0 {
      forall j | 0 <= j < |rest| ensures !Quotes(e, rest[j]) { assert rest[j] == conflicts[j + 1]; }
      assert Matching(rest, e) == [];
    } else {
      assert QuotesOnly(e, rest, i - 1);
    }
  }

  lemma ConflictStep(d: CardState, e: Event, k: Conflict)
    ensures k in Step(d, e).conflicts <==> if Kept(k)(d, e).Some? then Kept(k)(d, e).value else k in d.conflicts
  {
    if e.action == ReleaseClaim && !d.voided { ReleaseStep(d, e, k); }
  }

  lemma ReleaseStep(d: CardState, e: Event, k: Conflict)
    requires e.action == ReleaseClaim && !d.voided
    ensures k in Step(d, e).conflicts <==> k in d.conflicts && !(Resolves(d, e) && Quotes(e, k))
  {
    ResolvesIs(d, e);
    if Resolves(d, e) {
      FilterMember(d.conflicts, (c: Conflict) => !MatchesRelease(e, c), k);
    }
  }

  lemma ResolvesIs(d: CardState, e: Event)
    requires e.action == ReleaseClaim && !d.voided
    ensures Resolves(d, e) <==> !QuotesHolder(d, e) && ReleasesConflict(d, e)
  {
    MatchesAre(d.conflicts, e);
  }

  /** A conflict is on record exactly when the last event about it recorded it. */
  lemma ConflictLaw(born: CardState, es: seq<Event>, k: Conflict)
    ensures LastWrite(born, es, Kept(k), k in born.conflicts, k in FoldEvents(born, es).conflicts)
  {
    ghost var held := (c: CardState) => k in c.conflicts;
    forall d, e ensures held(Step(d, e)) == if Kept(k)(d, e).Some? then Kept(k)(d, e).value else held(d) {
      ConflictStep(d, e, k);
    }
    LastWins(born, es, Kept(k), held);
  }

  lemma ClaimLoses(d: CardState, e: Event)
    requires Loses(d, e)
    ensures Step(d, e) == d.(conflicts := d.conflicts + [RecordOf(d, e)], updatedAt := e.key.ts)
  {
  }

  /** A claim that loses adds exactly one record, at the end, and changes nothing else. */
  lemma LosingClaimIsRecorded(born: CardState, es: seq<Event>, e: Event)
    requires Loses(FoldEvents(born, es), e)
    ensures var d := FoldEvents(born, es);
            FoldEvents(born, es + [e]) == d.(conflicts := d.conflicts + [RecordOf(d, e)], updatedAt := e.key.ts)
  {
    FoldSnoc(born, es, e);
    ClaimLoses(FoldEvents(born, es), e);
  }

  /** A release that is neither of the above is recorded with what it found, and changes nothing else. */
  lemma StaleReleaseIsRecorded(born: CardState, es: seq<Event>, e: Event)
    requires var d := FoldEvents(born, es);
             e.action == ReleaseClaim && !d.voided && !QuotesHolder(d, e) && !Resolves(d, e)
    ensures var d := FoldEvents(born, es);
            var found := ReleaseConflict(e.eventId, e.releasedOwner, e.expectedRevision, d.owner, d.revision);
            FoldEvents(born, es + [e]) == d.(releaseConflicts := d.releaseConflicts + [found], updatedAt := e.key.ts)
  {
    FoldSnoc(born, es, e);
    ResolvesIs(FoldEvents(born, es), e);
  }

  // ----- Labels and dependencies -----

  datatype Edit = Add(item: string) | Remove(item: string) | Neither

  function Edited(s: seq<string>, edit: Edit): seq<string> {
    match edit
    case Add(x) => if x in s then s else s + [x]
    case Remove(x) => RemoveFirst(s, x)
    case Neither => s
  }

  function EditAll(s: seq<string>, edits: seq<Edit>): seq<string> {
    if edits == [] then s else Edited(EditAll(s, edits[..|edits| - 1]), edits[|edits| - 1])
  }

  function LabelEdit(e: Event): Edit {
    if e.action == AddLabel && e.label_.Some? && e.label_.value != "" then Add(e.label_.value)
    else if e.action == RemoveLabel && e.label_.Some? then Remove(e.label_.value)
    else Neither
  }

  function DependencyEdit(e: Event): Edit {
    if e.action == AddDependency && e.dependency.Some? && e.dependency.value != "" then Add(e.dependency.value)
    else if e.action == RemoveDependency && e.dependency.Some? then Remove(e.dependency.value)
    else Neither
  }

  lemma {:induction false} ListsAreEdited(
    born: CardState, es: seq<Event>, f: CardState -> seq<string>, edit: Event -> Edit)
    requires forall d, e :: f(Step(d, e)) == Edited(f(d), edit(e))
    ensures f(FoldEvents(born, es)) == EditAll(f(born), MapAll(es, edit))
    decreases |es|
  {
    if es != [] {
      var front, last := es[..|es| - 1], es[|es| - 1];
      assert es == front + [last];
      ListsAreEdited(born, front, f, edit);
      FoldSnoc(born, front, last);
      var edits := MapAll(es, edit);
      assert edits[..|es| - 1] == MapAll(front, edit) && edits[|es| - 1] == edit(last);
      assert EditAll(f(born), edits) == Edited(EditAll(f(born), MapAll(front, edit)), edit(last));
    }
  }

  lemma RemoveAbsent(s: seq<string>, x: string)
    ensures x !in s ==> RemoveFirst(s, x) == s
  {
    RemoveFirstDrops(s, x);
  }

  lemma LabelStep(d: CardState, e: Event)
    ensures Step(d, e).labels == Edited(d.labels, LabelEdit(e))
  {
    if e.action == AddLabel || e.action == RemoveLabel { LabelEdited(d, e); }
  }

  lemma LabelEdited(d: CardState, e: Event)
    requires e.action == AddLabel || e.action == RemoveLabel
    ensures Step(d, e).labels == Edited(d.labels, LabelEdit(e))
  {
    if e.label_.Some? { RemoveAbsent(d.labels, e.label_.value); }
  }

  lemma DependencyStep(d: CardState, e: Event)
    ensures Step(d, e).dependencies == Edited(d.dependencies, DependencyEdit(e))
  {
    if e.action == AddDependency || e.action == RemoveDependency { DependencyEdited(d, e); }
  }

  lemma DependencyEdited(d: CardState, e: Event)
    requires e.action == AddDependency || e.action == RemoveDependency
    ensures Step(d, e).dependencies == Edited(d.dependencies, DependencyEdit(e))
  {
    if e.dependency.Some? { RemoveAbsent(d.dependencies, e.dependency.value); }
  }

  /** Labels are a list edited by their own events alone. */
  lemma LabelLaw(born: CardState, es: seq<Event>)
    ensures FoldEvents(born, es).labels == EditAll(born.labels, MapAll(es, LabelEdit))
  {
    var f := (c: CardState) => c.labels;
    forall d, e ensures f(Step(d, e)) == Edited(f(d), LabelEdit(e)) { LabelStep(d, e); }
    ListsAreEdited(born, es, f, LabelEdit);
  }

  /** So are dependencies. */
  lemma DependencyLaw(born: CardState, es: seq<Event>)
    ensures FoldEvents(born, es).dependencies == EditAll(born.dependencies, MapAll(es, DependencyEdit))
  {
    var f := (c: CardState) => c.dependencies;
    forall d, e ensures f(Step(d, e)) == Edited(f(d), DependencyEdit(e)) { DependencyStep(d, e); }
    ListsAreEdited(born, es, f, DependencyEdit);
  }

  /** How often an item listed `n` times at first is listed after the edits. */
  function Times(n: nat, edits: seq<Edit>, x: string): nat {
    if edits == [] then n
    else
      var before, last := Times(n, edits[..|edits| - 1], x), edits[|edits| - 1];
      if last == Add(x) && before == 0 then 1
      else if last == Remove(x) && before > 0 then before - 1
      else before
  }

  lemma {:induction false} ListedTimes(s: seq<string>, edits: seq<Edit>, x: string)
    ensures multiset(EditAll(s, edits))[x] == Times(multiset(s)[x], edits, x)
  {
    if edits != [] {
      var before, last := EditAll(s, edits[..|edits| - 1]), edits[|edits| - 1];
      ListedTimes(s, edits[..|edits| - 1], x);
      assert x in before <==> x in multiset(before);
      if last.Remove? {
        RemoveAbsent(before, last.item);
        if last.item in before { RemoveFirstCounts(before, last.item); }
      }
    }
  }

  /** The last addition comes after the last removal. */
  ghost predicate AddedSince(edits: seq<Edit>, x: string) {
    exists i :: 0 <= i < |edits| && AddedAt(edits, x, i)
  }

  ghost predicate AddedAt(edits: seq<Edit>, x: string, i: nat)
    requires i < |edits|
  {
    edits[i] == Add(x) && forall j :: i < j < |edits| ==> edits[j] != Remove(x)
  }

  lemma AddedSinceSnoc(front: seq<Edit>, last: Edit, x: string)
    ensures AddedSince(front + [last], x) <==> last == Add(x) || (AddedSince(front, x) && last != Remove(x))
  {
    var edits := front + [last];
    if last == Add(x) { assert AddedAt(edits, x, |front|); }
    if i :| 0 <= i < |front| && AddedAt(front, x, i) && last != Remove(x) { assert AddedAt(edits, x, i); }
    if i :| 0 <= i < |edits| && AddedAt(edits, x, i) && i < |front| {
      assert edits[|front|] == last;
      forall j | i < j < |front| ensures front[j] != Remove(x) { assert edits[j] == front[j]; }
      assert AddedAt(front, x, i);
    }
  }

  lemma {:induction false} TimesExactly(n: nat, edits: seq<Edit>, x: string)
    requires n <= 1
    ensures Times(n, edits, x) == if (n == 1 && Remove(x) !in edits) || AddedSince(edits, x) then 1 else 0
  {
    if edits != [] {
      var front, last := edits[..|edits| - 1], edits[|edits| - 1];
      assert edits == front + [last];
      TimesExactly(n, front, x);
      AddedSinceSnoc(front, last, x);
    }
  }

  /**
    An item that the core lists at most once is held exactly when its last addition
    comes after its last removal, or it came with the core and was never removed.
  */
  lemma HeldExactly(s: seq<string>, edits: seq<Edit>, x: string)
    requires multiset(s)[x] <= 1
    ensures multiset(EditAll(s, edits))[x] <= 1
    ensures x in EditAll(s, edits) <==> (x in s && Remove(x) !in edits) || AddedSince(edits, x)
  {
    ListedTimes(s, edits, x);
    TimesExactly(multiset(s)[x], edits, x);
    assert x in EditAll(s, edits) <==> x in multiset(EditAll(s, edits));
    assert x in s <==> x in multiset(s);
  }

  function Additions(edits: seq<Edit>): seq<string> {
    if edits == [] then []
    else Additions(edits[..|edits| - 1]) + if edits[|edits| - 1].Add? then [edits[|edits| - 1].item] else []
  }

  lemma {:induction false} RemoveAt(s: seq<string>, x: string) returns (k: nat)
    requires x in s
    ensures k < |s| && s[k] == x && RemoveFirst(s, x) == s[..k] + s[k + 1..]
  {
    if s[0] == x {
      k := 0;
    } else {
      k := RemoveAt(s[1..], x);
      k := k + 1;
      assert [s[0]] + s[1..][..k - 1] == s[..k] && s[1..][k..] == s[k + 1..];
    }
  }

  /** `s` is found at the increasing positions `at` of `all`. */
  ghost predicate FoundAt(s: seq<string>, all: seq<string>, at: seq<nat>) {
    && |at| == |s|
    && (forall k :: 0 <= k < |at| ==> at[k] < |all| && s[k] == all[at[k]])
    && (forall j, k :: 0 <= j < k < |at| ==> at[j] < at[k])
  }

  lemma FoundWithout(s: seq<string>, all: seq<string>, at: seq<nat>, k: nat)
    requires FoundAt(s, all, at) && k < |s|
    ensures FoundAt(s[..k] + s[k + 1..], all, at[..k] + at[k + 1..])
  {
    var t, now := s[..k] + s[k + 1..], at[..k] + at[k + 1..];
    forall i | 0 <= i < |now|
      ensures now[i] == at[if i < k then i else i + 1] && t[i] == s[if i < k then i else i + 1]
    {
    }
  }

  lemma FoundAfter(s: seq<string>, all: seq<string>, at: seq<nat>, edit: Edit) returns (now: seq<nat>)
    requires FoundAt(s, all, at)
    ensures FoundAt(Edited(s, edit), all + if edit.Add? then [edit.item] else [], now)
  {
    now := at;
    match edit
    case Add(x) =>
      if x !in s { now := at + [|all|]; }
    case Remove(x) =>
      RemoveAbsent(s, x);
      assert all + [] == all;
      if x in s {
        var k := RemoveAt(s, x);
        now := at[..k] + at[k + 1..];
        FoundWithout(s, all, at, k);
      }
    case Neither =>
      assert all + [] == all;
  }

  /** A list keeps the order of the core, and then that of the additions. */
  lemma {:induction false} OrderIsKept(s: seq<string>, edits: seq<Edit>) returns (at: seq<nat>)
    ensures FoundAt(EditAll(s, edits), s + Additions(edits), at)
  {
    if edits == [] {
      at := seq(|s|, i => i);
      assert s + Additions(edits) == s;
    } else {
      var front, last := edits[..|edits| - 1], edits[|edits| - 1];
      at := OrderIsKept(s, front);
      at := FoundAfter(EditAll(s, front), s + Additions(front), at, last);
      assert s + Additions(edits) == s + Additions(front) + if last.Add? then [last.item] else [];
    }
  }

  // ----- The whole fold -----

  /** Every field of a folded card, from the core's own facts and the merged events. */
  lemma FoldLaws(core: Core, files: seq<seq<Event>>, legacy: seq<Event>)
    ensures FoldCard(core, files, legacy).Failure?
            <==> core.owner.Some? && (core.claimRevision == None || core.claimRevision == Some(""))
    ensures FoldCard(core, files, legacy).Success? ==>
              var c, es := FoldCard(core, files, legacy).value, Stream(files, legacy);
              var born := CardState(
                if core.owner.Some? then Doing else Backlog, core.owner, 0, core.priority, core.swimlane,
                core.title, core.description, core.labels, map[], core.dependencies, false, false,
                if core.owner.Some? then core.claimRevision else None, [], [], "");
              && LastWrite(born, es, ColumnSet, born.status, c.status)
              && LastWrite(born, es, HolderSet, born.owner, c.owner)
              && LastWrite(born, es, RevisionSet, born.revision, c.revision)
              && LastWrite(born, es, PlaceSet, 0, c.order)
              && LastWrite(born, es, ArchivedSet, false, c.archived)
              && LastWrite(born, es, VoidedSet, false, c.voided)
              && LastWrite(born, es, PrioritySet, core.priority, c.priority)
              && LastWrite(born, es, SwimlaneSet, core.swimlane, c.swimlane)
              && LastWrite(born, es, TitleSet, core.title, c.title)
              && LastWrite(born, es, DescriptionSet, core.description, c.description)
              && LastWrite(born, es, UpdatedSet, "", c.updatedAt)
              && c.labels == EditAll(core.labels, MapAll(es, LabelEdit))
              && c.dependencies == EditAll(core.dependencies, MapAll(es, DependencyEdit))
              && (forall key :: LastWrite(born, es, Link(key), None, LinkOf(c, key)))
              && (forall k :: LastWrite(born, es, Kept(k), false, k in c.conflicts))
  {
    if FoldCard(core, files, legacy).Success? {
      var born, es := Birth(core).value, Stream(files, legacy);
      ColumnLaw(born, es);
      HolderLaw(born, es);
      ShelfLaw(born, es);
      TextLaw(born, es);
      DescribeLaw(born, es);
      LabelLaw(born, es);
      DependencyLaw(born, es);
      forall key ensures LastWrite(born, es, Link(key), None, LinkOf(FoldEvents(born, es), key)) {
        LinkLaw(born, es, key);
      }
      forall k ensures LastWrite(born, es, Kept(k), false, k in FoldEvents(born, es).conflicts) {
        ConflictLaw(born, es, k);
      }
    }
  }
}
