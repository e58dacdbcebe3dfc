/**
  The event-sourced card (`CardStore.fold`): a core and an ordered stream of
  events fold into the card every reader is served.
*/
module CardFold {
  import opened Ordering
  import opened Sequences
  import opened Wrappers

  datatype Column = Backlog | Ready | Doing | Review | Done

  const CLAIM_COLUMN := Doing
  const COMPLETE_COLUMN := Done

  /** `Column(value)` for the strings that name a column. */
  function ParseColumn(s: Option<string>): Option<Column> {
    if s == Some("backlog") then Some(Backlog)
    else if s == Some("ready") then Some(Ready)
    else if s == Some("doing") then Some(Doing)
    else if s == Some("review") then Some(Review)
    else if s == Some("done") then Some(Done)
    else None
  }

  predicate Active(c: Column) {
    c == Ready || c == Doing || c == Review
  }

  /** Actions the model folds. `Other` stands for those that touch none of its fields. */
  datatype Action =
    | Void | Move | Assign | Unassign | ReleaseClaim | Claim | Complete
    | SetPriority | SetSwimlane | AddLabel | RemoveLabel | SetLink | Describe
    | AddDependency | RemoveDependency | Archive | Reopen | Other

  datatype Event = Event(
    key: Key, action: Action, eventId: Option<string>, transitionId: Option<string>,
    column: Option<string>, order: Option<int>, priority: Option<string>, swimlane: Option<string>,
    label_: Option<string>, linkKey: Option<string>, linkValue: Option<string>, owner: Option<string>,
    title: Option<string>, description: Option<string>, dependency: Option<string>,
    claimRevision: Option<string>, releasedOwner: Option<string>, expectedRevision: Option<string>)

  /** A claim that arrived while another agent held the card. */
  datatype Conflict = Conflict(
    eventId: Option<string>, owner: Option<string>, claimRevision: Option<string>,
    existingOwner: Option<string>, existingRevision: Option<string>)

  /** A release whose precondition matched neither the claim nor one conflict. */
  datatype ReleaseConflict = ReleaseConflict(
    eventId: Option<string>, releasedOwner: Option<string>, expectedRevision: Option<string>,
    actualOwner: Option<string>, actualRevision: Option<string>)

  datatype CardState = CardState(
    status: Column, owner: Option<string>, order: int, priority: string, swimlane: string,
    title: string, description: string, labels: seq<string>, links: map<string, Option<string>>,
    dependencies: seq<string>, archived: bool, voided: bool, revision: Option<string>,
    conflicts: seq<Conflict>, releaseConflicts: seq<ReleaseConflict>, updatedAt: string)

  // ----- One event -----

  /** After a void these actions only touch the update time. */
  predicate VoidTerminal(a: Action) {
    a in {Move, Reopen, Assign, Unassign, Claim, ReleaseClaim, Complete}
  }

  /** `e.get("claim_revision") or e.get("event_id")`. */
  function ClaimedRevision(e: Event): Option<string> {
    if Truthy(e.claimRevision) then e.claimRevision else e.eventId
  }

  predicate ValidRelease(e: Event) {
    Truthy(e.releasedOwner) && Truthy(e.expectedRevision)
  }

  predicate ReleasesCurrent(c: CardState, e: Event) {
    ValidRelease(e) && c.owner == e.releasedOwner && c.revision == e.expectedRevision
  }

  predicate MatchesRelease(e: Event, conflict: Conflict) {
    conflict.owner == e.releasedOwner && conflict.claimRevision == e.expectedRevision
  }

  function Matching(conflicts: seq<Conflict>, e: Event): seq<Conflict> {
    Filter(conflicts, (k: Conflict) => MatchesRelease(e, k))
  }

  predicate ReleasesConflict(c: CardState, e: Event) {
    var matching := Matching(c.conflicts, e);
    && ValidRelease(e) && |matching| == 1 && Truthy(c.revision)
    && c.owner == matching[0].existingOwner && c.revision == matching[0].existingRevision
  }

  /** A claim by another agent on a card that is owned and active. */
  predicate RivalClaim(c: CardState, e: Event) {
    Truthy(e.owner) && Truthy(c.owner) && c.owner != e.owner && Active(c.status)
  }

  function Release(c: CardState, e: Event): CardState {
    if ReleasesCurrent(c, e) then c.(owner := None, status := Backlog, revision := None)
    else if ReleasesConflict(c, e) then
      c.(conflicts := Filter(c.conflicts, (k: Conflict) => !MatchesRelease(e, k)))
    else
      c.(releaseConflicts := c.releaseConflicts
         + [ReleaseConflict(e.eventId, e.releasedOwner, e.expectedRevision, c.owner, c.revision)])
  }

  function TakeClaim(c: CardState, e: Event): CardState {
    if RivalClaim(c, e) then
      c.(conflicts := c.conflicts + [Conflict(e.eventId, e.owner, e.claimRevision, c.owner, c.revision)])
    else
      var revision := if Truthy(ClaimedRevision(e)) then ClaimedRevision(e) else None;
      var clears := c.owner == None && c.status == Backlog && Truthy(e.owner);
      c.(owner := e.owner, status := CLAIM_COLUMN, revision := revision,
         conflicts := if clears then [] else c.conflicts)
  }

  function MoveTo(c: CardState, column: Option<string>): CardState {
    if ParseColumn(column).Some? then c.(status := ParseColumn(column).value) else c
  }

  /** What one event does, apart from the update time. */
  function Effect(c: CardState, e: Event): CardState {
    if c.voided && VoidTerminal(e.action) then c
    else match e.action
      case Void => c.(voided := true, archived := true, owner := None, revision := None)
      case Move => MoveTo(c, e.column).(order := if e.order.Some? then e.order.value else c.order)
      case Assign => c.(owner := e.owner, revision := None)
      case Unassign => c.(owner := None, revision := None)
      case ReleaseClaim => Release(c, e)
      case Claim => TakeClaim(c, e)
      case Complete => c.(status := COMPLETE_COLUMN, owner := None, revision := None)
      case SetPriority => if Truthy(e.priority) then c.(priority := e.priority.value) else c
      case SetSwimlane => if Truthy(e.swimlane) then c.(swimlane := e.swimlane.value) else c
      case AddLabel =>
        if Truthy(e.label_) && e.label_.value !in c.labels then c.(labels := c.labels + [e.label_.value]) else c
      case RemoveLabel =>
        if e.label_.Some? && e.label_.value in c.labels then c.(labels := RemoveFirst(c.labels, e.label_.value)) else c
      case SetLink => if e.linkKey.Some? then c.(links := c.links[e.linkKey.value := e.linkValue]) else c
      case Describe =>
        c.(title := if e.title.Some? then e.title.value else c.title,
           description := if e.description.Some? then e.description.value else c.description)
      case AddDependency =>
        if Truthy(e.dependency) && e.dependency.value !in c.dependencies
        then c.(dependencies := c.dependencies + [e.dependency.value]) else c
      case RemoveDependency =>
        if e.dependency.Some? && e.dependency.value in c.dependencies
        then c.(dependencies := RemoveFirst(c.dependencies, e.dependency.value)) else c
      case Archive => c.(archived := true)
      case Reopen => MoveTo(c, e.column).(archived := false)
      case Other => c
  }

  function Step(c: CardState, e: Event): CardState {
    Effect(c, e).(updatedAt := e.key.ts)
  }

  function FoldEvents(c: CardState, es: seq<Event>): CardState
    decreases |es|
  {
    if es == [] then c else FoldEvents(Step(c, es[0]), es[1..])
  }

  lemma {:induction false} FoldConcat(c: CardState, a: seq<Event>, b: seq<Event>)
    ensures FoldEvents(c, a + b) == FoldEvents(FoldEvents(c, a), b)
    decreases |a|
  {
    if a == [] {
      assert a + b == b;
    } else {
      assert (a + b)[1..] == a[1..] + b;
      FoldConcat(Step(c, a[0]), a[1..], b);
    }
  }

  lemma FoldSnoc(c: CardState, es: seq<Event>, e: Event)
    ensures FoldEvents(c, es + [e]) == Step(FoldEvents(c, es), e)
  {
    FoldConcat(c, es, [e]);
    assert [e][1..] == [];
  }

  lemma FoldOne(c: CardState, e: Event)
    ensures FoldEvents(c, [e]) == Step(c, e)
  {
    FoldSnoc(c, [], e);
    assert [] + [e] == [e];
  }

  lemma FoldTwo(c: CardState, a: Event, b: Event)
    ensures FoldEvents(c, [a, b]) == Step(Step(c, a), b)
  {
    FoldSnoc(c, [a], b);
    FoldOne(c, a);
    assert [a] + [b] == [a, b];
  }

  // ----- The birth facts -----

  datatype Core = Core(
    title: string, description: string, swimlane: string, priority: string,
    owner: Option<string>, claimRevision: Option<string>, labels: seq<string>, dependencies: seq<string>)

  datatype FoldError = OwnerWithoutRevision

  /** The card a core describes before any event. */
  function Birth(core: Core): Result<CardState, FoldError> {
    if core.owner.Some? && !Truthy(core.claimRevision) then Failure(OwnerWithoutRevision)
    else
      Success(CardState(
        if core.owner.Some? then CLAIM_COLUMN else Backlog, core.owner, 0, core.priority, core.swimlane,
        core.title, core.description, core.labels, map[], core.dependencies, false, false,
        if core.owner.Some? then core.claimRevision else None, [], [], ""))
  }

  const EVENT_KEY: Event -> Key := (e: Event) => e.key

  function Flatten(files: seq<seq<Event>>): seq<Event> {
    if files == [] then [] else Flatten(files[..|files| - 1]) + files[|files| - 1]
  }

  /** `_read_events`: every writer file, sorted by `(ts, writer, seq)`. */
  function ReadEvents(files: seq<seq<Event>>): seq<Event> {
    StableSort(Flatten(files), EVENT_KEY)
  }

  /** The stream a fold applies: legacy mutations force a second sort. */
  function Stream(files: seq<seq<Event>>, legacy: seq<Event>): seq<Event> {
    if legacy == [] then ReadEvents(files) else StableSort(ReadEvents(files) + legacy, EVENT_KEY)
  }

  function FoldCard(core: Core, files: seq<seq<Event>>, legacy: seq<Event>): Result<CardState, FoldError> {
    match Birth(core)
    case Failure(e) => Failure(e)
    case Success(c) => Success(FoldEvents(c, Stream(files, legacy)))
  }

  // ----- The mutable card the fold builds -----

  class Card {
    var status: Column
    var owner: Option<string>
    var order: int
    var priority: string
    var swimlane: string
    var title: string
    var description: string
    var labels: seq<string>
    var links: map<string, Option<string>>
    var dependencies: seq<string>
    var archived: bool
    var voided: bool
    var revision: Option<string>
    var conflicts: seq<Conflict>
    var releaseConflicts: seq<ReleaseConflict>
    var updatedAt: string

    ghost function View(): CardState
      reads this
    {
      CardState(status, owner, order, priority, swimlane, title, description, labels, links, dependencies,
                archived, voided, revision, conflicts, releaseConflicts, updatedAt)
    }

    constructor (birth: CardState)
      ensures View() == birth
    {
      status, owner, order, priority := birth.status, birth.owner, birth.order, birth.priority;
      swimlane, title, description := birth.swimlane, birth.title, birth.description;
      labels, links, dependencies := birth.labels, birth.links, birth.dependencies;
      archived, voided, revision := birth.archived, birth.voided, birth.revision;
      conflicts, releaseConflicts, updatedAt := birth.conflicts, birth.releaseConflicts, birth.updatedAt;
    }

    method ApplyRelease(e: Event)
      modifies `status, `owner, `revision, `conflicts, `releaseConflicts
      ensures View() == Release(old(View()), e)
    {
      var actualRevision := revision;
      var validRelease := Truthy(e.releasedOwner) && Truthy(e.expectedRevision);
      var matching := Matching(conflicts, e);
      if validRelease && owner == e.releasedOwner && actualRevision == e.expectedRevision {
        owner, status, revision := None, Backlog, None;
      } else if validRelease && |matching| == 1 && Truthy(actualRevision)
                && owner == matching[0].existingOwner && actualRevision == matching[0].existingRevision {
        conflicts := Filter(conflicts, (k: Conflict) => !MatchesRelease(e, k));
      } else {
        releaseConflicts := releaseConflicts
        + [ReleaseConflict(e.eventId, e.releasedOwner, e.expectedRevision, owner, actualRevision)];
      }
    }

    method ApplyClaim(e: Event)
      modifies `status, `owner, `revision, `conflicts
      ensures View() == TakeClaim(old(View()), e)
    {
      var wasUnownedBacklog := owner == None && status == Backlog;
      if Truthy(e.owner) && Truthy(owner) && owner != e.owner && Active(status) {
        conflicts := conflicts + [Conflict(e.eventId, e.owner, e.claimRevision, owner, revision)];
      } else {
        owner, status := e.owner, CLAIM_COLUMN;
        revision := if Truthy(ClaimedRevision(e)) then ClaimedRevision(e) else None;
        if wasUnownedBacklog && Truthy(e.owner) {
          conflicts := [];
        }
      }
    }

    /** The actions on descriptive text. */
    method ApplyText(e: Event)
      requires e.action == SetPriority || e.action == SetSwimlane || e.action == Describe
      modifies `priority, `swimlane, `title, `description
      ensures View() == Effect(old(View()), e)
    {
      if e.action == SetPriority {
        if Truthy(e.priority) { priority := e.priority.value; }
      } else if e.action == SetSwimlane {
        if Truthy(e.swimlane) { swimlane := e.swimlane.value; }
      } else {
        if e.title.Some? { title := e.title.value; }
        if e.description.Some? { description := e.description.value; }
      }
    }

    /** The actions on labels and links. */
    method ApplyLabel(e: Event)
      requires e.action == AddLabel || e.action == RemoveLabel || e.action == SetLink
      modifies `labels, `links
      ensures View() == Effect(old(View()), e)
    {
      if e.action == AddLabel {
        if Truthy(e.label_) && e.label_.value !in labels { labels := labels + [e.label_.value]; }
      } else if e.action == RemoveLabel {
        if e.label_.Some? && e.label_.value in labels { labels := RemoveFirst(labels, e.label_.value); }
      } else {
        if e.linkKey.Some? { links := links[e.linkKey.value := e.linkValue]; }
      }
    }

    method ApplyDependency(e: Event)
      requires e.action == AddDependency || e.action == RemoveDependency
      modifies `dependencies
      ensures View() == Effect(old(View()), e)
    {
      if e.action == AddDependency {
        if Truthy(e.dependency) && e.dependency.value !in dependencies {
          dependencies := dependencies + [e.dependency.value];
        }
      } else {
        if e.dependency.Some? && e.dependency.value in dependencies {
          dependencies := RemoveFirst(dependencies, e.dependency.value);
        }
      }
    }

    /** The column actions that a void switches off. */
    method ApplyMove(e: Event)
      requires !voided && (e.action == Move || e.action == Reopen)
      modifies `status, `order, `archived
      ensures View() == Effect(old(View()), e)
    {
      if e.action == Move {
        if e.order.Some? { order := e.order.value; }
      } else {
        archived := false;
      }
      if ParseColumn(e.column).Some? { status := ParseColumn(e.column).value; }
    }

    /** The ownership actions that a void switches off. */
    method ApplyOwner(e: Event)
      requires !voided && (e.action == Assign || e.action == Unassign || e.action == Complete)
      modifies `status, `owner, `revision
      ensures View() == Effect(old(View()), e)
    {
      if e.action == Assign {
        owner := e.owner;
      } else {
        if e.action == Complete { status := COMPLETE_COLUMN; }
        owner := None;
      }
      revision := None;
    }

    /** One turn of the event loop. */
    method Apply(e: Event)
      modifies this
      ensures View() == Step(old(View()), e)
    {
      if voided && VoidTerminal(e.action) {
      } else if VoidTerminal(e.action) {
        ApplyHolding(e);
      } else if e.action == Void || e.action == Archive {
        ApplyShelving(e);
      } else if e.action != Other {
        ApplyContent(e);
      }
      updatedAt := e.key.ts;
    }

    /** The actions on who holds the card, and where. */
    method ApplyHolding(e: Event)
      requires !voided && VoidTerminal(e.action)
      modifies `status, `order, `owner, `revision, `archived, `conflicts, `releaseConflicts
      ensures View() == Effect(old(View()), e)
    {
      if e.action == ReleaseClaim {
        ApplyRelease(e);
      } else if e.action == Claim {
        ApplyClaim(e);
      } else if e.action == Move || e.action == Reopen {
        ApplyMove(e);
      } else {
        ApplyOwner(e);
      }
    }

    method ApplyShelving(e: Event)
      requires e.action == Void || e.action == Archive
      modifies `voided, `archived, `owner, `revision
      ensures View() == Effect(old(View()), e)
    {
      if e.action == Void {
        voided, owner, revision := true, None, None;
      }
      archived := true;
    }

    /** The actions on what a card says, whoever holds it. */
    method ApplyContent(e: Event)
      requires e.action in {SetPriority, SetSwimlane, Describe, AddDependency, RemoveDependency,
                            AddLabel, RemoveLabel, SetLink}
      modifies `priority, `swimlane, `title, `description, `labels, `links, `dependencies
      ensures View() == Effect(old(View()), e)
    {
      if e.action == SetPriority || e.action == SetSwimlane || e.action == Describe {
        ApplyText(e);
      } else if e.action == AddDependency || e.action == RemoveDependency {
        ApplyDependency(e);
      } else {
        ApplyLabel(e);
      }
    }
  }

  /** The events of every writer file and of the legacy overlay, in fold order. */
  method Merge(files: seq<seq<Event>>, legacy: seq<Event>) returns (events: seq<Event>)
    ensures events == Stream(files, legacy)
  {
    events := [];
    for i := 0 to |files|
      invariant events == Flatten(files[..i])
    {
      assert files[..i + 1][..i] == files[..i];
      events := events + files[i];
    }
    assert files[..|files|] == files;
    events := StableSort(events, EVENT_KEY);
    if legacy != [] {
      events := StableSort(events + legacy, EVENT_KEY);
    }
  }

  method ApplyAll(card: Card, events: seq<Event>)
    modifies card
    ensures card.View() == FoldEvents(old(card.View()), events)
  {
    ghost var birth := card.View();
    for i := 0 to |events|
      invariant card.View() == FoldEvents(birth, events[..i])
    {
      assert events[..i + 1] == events[..i] + [events[i]];
      FoldSnoc(birth, events[..i], events[i]);
      card.Apply(events[i]);
    }
    assert events[..|events|] == events;
  }

  /** `CardStore.fold`: read every writer file, merge, and apply in order. */
  method Fold(core: Core, files: seq<seq<Event>>, legacy: seq<Event>) returns (r: Result<Card, FoldError>)
    ensures r.Failure? <==> FoldCard(core, files, legacy).Failure?
    ensures r.Success? ==> fresh(r.value) && FoldCard(core, files, legacy) == Success(r.value.View())
  {
    if core.owner.Some? && !Truthy(core.claimRevision) {
      return Failure(OwnerWithoutRevision);
    }
    var card := new Card(Birth(core).value);
    var events := Merge(files, legacy);
    ApplyAll(card, events);
    r := Success(card);
  }
}
