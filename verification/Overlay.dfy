/**
  The kanban overlay: events any host may append, folded in one batch into a
  patch per card (`fold_overlay`) that is applied to the legacy projection. The
  card store folds the same events one by one instead.
*/
module Overlay {
  import opened Ordering
  import opened Sequences
  import opened Wrappers
  import opened CardFold

  datatype OverlayAction =
    | OMove | OSetPriority | OSetSwimlane | OAddLabel | ORemoveLabel | OLink | OAssign | OUnassign
    | ODescribe | OVerdict

  datatype OverlayEvent = OverlayEvent(
    cardId: string, key: Key, action: OverlayAction,
    column: Option<string>, order: Option<int>, priority: Option<string>, swimlane: Option<string>,
    label_: Option<string>, linkKey: Option<string>, linkValue: Option<string>, owner: Option<string>,
    title: Option<string>, description: Option<string>)

  const OVERLAY_KEY: OverlayEvent -> Key := (e: OverlayEvent) => e.key

  // ----- Admission -----

  predicate Filled(s: Option<string>) {
    s.Some? && !Blank(s.value)
  }

  /** No payload field outside those the action allows. */
  predicate OnlyAllowed(e: OverlayEvent) {
    && (e.column.Some? || e.order.Some? ==> e.action == OMove)
    && (e.priority.Some? ==> e.action == OSetPriority)
    && (e.swimlane.Some? ==> e.action == OSetSwimlane)
    && (e.label_.Some? ==> e.action == OAddLabel || e.action == ORemoveLabel)
    && (e.linkKey.Some? || e.linkValue.Some? ==> e.action == OLink || e.action == OVerdict)
    && (e.owner.Some? ==> e.action == OAssign)
    && (e.title.Some? || e.description.Some? ==> e.action == ODescribe)
  }

  /** `validate_overlay_event`, for an event whose action and writer are known. */
  predicate Validated(e: OverlayEvent) {
    && OnlyAllowed(e)
    && match e.action
       case OMove => e.column.Some? || e.order.Some?
       case OSetPriority => Filled(e.priority)
       case OSetSwimlane => Filled(e.swimlane)
       case OAddLabel => Filled(e.label_)
       case ORemoveLabel => Filled(e.label_)
       case OLink => Filled(e.linkKey) && e.linkValue.Some?
       case OVerdict => e.linkKey == Some("verdict") && e.linkValue.Some?
       case OAssign => Filled(e.owner)
       case OUnassign => true
       case ODescribe => e.title.Some? || e.description.Some?
  }

  /** The fields that an action may carry, as an event with all others left out. */
  function OwnFields(e: OverlayEvent): OverlayEvent {
    var none := OverlayEvent(e.cardId, e.key, e.action, None, None, None, None, None, None, None, None, None, None);
    match e.action
    case OMove => none.(column := e.column, order := e.order)
    case OSetPriority => none.(priority := e.priority)
    case OSetSwimlane => none.(swimlane := e.swimlane)
    case OAddLabel => none.(label_ := e.label_)
    case ORemoveLabel => none.(label_ := e.label_)
    case OLink => none.(linkKey := e.linkKey, linkValue := e.linkValue)
    case OVerdict => none.(linkKey := e.linkKey, linkValue := e.linkValue)
    case OAssign => none.(owner := e.owner)
    case OUnassign => none
    case ODescribe => none.(title := e.title, description := e.description)
  }

  /**
    An event is admitted exactly when it carries no field but its action's own, the text
    it must have is not blank, and of two alternative fields it has one.
  */
  lemma ValidatedExactly(e: OverlayEvent)
    ensures Validated(e) <==>
            && e == OwnFields(e)
            && (e.action in {OSetPriority, OSetSwimlane, OAddLabel, ORemoveLabel, OAssign} ==>
                  exists text :: text in {e.priority, e.swimlane, e.label_, e.owner} && text.Some?
                                 && exists c :: c in text.value && !Space(c))
            && (e.action in {OLink, OVerdict} ==>
                  e.linkValue.Some? && e.linkKey.Some? && exists c :: c in e.linkKey.value && !Space(c))
            && (e.action == OVerdict ==> e.linkKey == Some("verdict"))
            && (e.action == OMove ==> e.column.Some? || e.order.Some?)
            && (e.action == ODescribe ==> e.title.Some? || e.description.Some?)
  {
    assert 'v' in "verdict" && !Space('v');
  }

  // ----- The batch fold -----

  datatype Patch = Patch(
    column: Option<string>, order: Option<int>, priority: Option<string>, swimlane: Option<string>,
    labels: seq<string>, links: map<string, Option<string>>, owner: Option<string>, ownerSet: bool,
    title: Option<string>, description: Option<string>)

  const EMPTY_PATCH := Patch(None, None, None, None, [], map[], None, false, None, None)

  function Later<T>(now: Option<T>, before: Option<T>): Option<T> {
    if now.Some? then now else before
  }

  function PatchStep(p: Patch, e: OverlayEvent): Patch {
    match e.action
    case OMove => p.(column := Later(e.column, p.column), order := Later(e.order, p.order))
    case OSetPriority => p.(priority := Later(e.priority, p.priority))
    case OSetSwimlane => p.(swimlane := Later(e.swimlane, p.swimlane))
    case OAddLabel =>
      if Truthy(e.label_) && e.label_.value !in p.labels then p.(labels := p.labels + [e.label_.value]) else p
    case ORemoveLabel =>
      if e.label_.Some? && e.label_.value in p.labels then p.(labels := RemoveFirst(p.labels, e.label_.value)) else p
    case OLink => if e.linkKey.Some? then p.(links := p.links[e.linkKey.value := e.linkValue]) else p
    case OAssign => if Truthy(e.owner) then p.(owner := e.owner, ownerSet := true) else p
    case OUnassign => p.(owner := None, ownerSet := true)
    case ODescribe => p.(title := Later(e.title, p.title), description := Later(e.description, p.description))
    case OVerdict => p
  }

  function PatchAll(p: Patch, es: seq<OverlayEvent>): Patch
    decreases |es|
  {
    if es == [] then p else PatchAll(PatchStep(p, es[0]), es[1..])
  }

  function Of(id: string): OverlayEvent -> bool {
    (e: OverlayEvent) => e.cardId == id
  }

  /** The patch of one card: its own events, in order. */
  function PatchOf(events: seq<OverlayEvent>, id: string): Patch {
    PatchAll(EMPTY_PATCH, Filter(StableSort(events, OVERLAY_KEY), Of(id)))
  }

  lemma {:induction false} PatchAllSnoc(p: Patch, es: seq<OverlayEvent>, e: OverlayEvent)
    ensures PatchAll(p, es + [e]) == PatchStep(PatchAll(p, es), e)
    decreases |es|
  {
    if es == [] {
      assert [e][1..] == [] && es + [e] == [e];
    } else {
      assert (es + [e])[1..] == es[1..] + [e];
      PatchAllSnoc(PatchStep(p, es[0]), es[1..], e);
    }
  }

  function BatchStep(overlay: map<string, Patch>, e: OverlayEvent): map<string, Patch> {
    overlay[e.cardId := PatchStep(if e.cardId in overlay then overlay[e.cardId] else EMPTY_PATCH, e)]
  }

  function Batch(es: seq<OverlayEvent>): map<string, Patch> {
    if es == [] then map[] else BatchStep(Batch(es[..|es| - 1]), es[|es| - 1])
  }

  /** One card's entry depends on that card's events only. */
  lemma {:induction false} BatchEntry(es: seq<OverlayEvent>, id: string)
    ensures id in Batch(es) <==> Filter(es, Of(id)) != []
    ensures id in Batch(es) ==> Batch(es)[id] == PatchAll(EMPTY_PATCH, Filter(es, Of(id)))
  {
    if es != [] {
      var front, e := es[..|es| - 1], es[|es| - 1];
      assert es == front + [e];
      BatchEntry(front, id);
      FilterSnoc(front, e, Of(id));
      PatchAllSnoc(EMPTY_PATCH, Filter(front, Of(id)), e);
      assert Filter(front, Of(id)) + [] == Filter(front, Of(id));
    }
  }

  /** `fold_overlay`: one sort of everything, one patch per card mentioned. */
  method FoldOverlay(events: seq<OverlayEvent>) returns (overlay: map<string, Patch>)
    ensures forall id :: id in overlay <==> exists e :: e in events && e.cardId == id
    ensures forall id :: id in overlay ==> overlay[id] == PatchOf(events, id)
  {
    var ordered := StableSort(events, OVERLAY_KEY);
    overlay := map[];
    for i := 0 to |ordered|
      invariant overlay == Batch(ordered[..i])
    {
      var e := ordered[i];
      assert ordered[..i + 1][..i] == ordered[..i];
      var patch := if e.cardId in overlay then overlay[e.cardId] else EMPTY_PATCH;
      overlay := overlay[e.cardId := PatchStep(patch, e)];
    }
    assert ordered[..|ordered|] == ordered;
    forall id
      ensures id in overlay <==> exists e :: e in events && e.cardId == id
      ensures id in overlay ==> overlay[id] == PatchOf(events, id)
    {
      BatchEntry(ordered, id);
      FilterSort(events, OVERLAY_KEY, Of(id));
      SortSorts(Filter(events, Of(id)), OVERLAY_KEY);
      assert |multiset(Filter(events, Of(id)))| == |Filter(events, Of(id))|;
      Mentions(events, id);
    }
  }

  lemma Mentions(events: seq<OverlayEvent>, id: string)
    ensures Filter(events, Of(id)) != [] <==> exists e :: e in events && e.cardId == id
  {
    if e :| e in events && e.cardId == id {
      FilterMember(events, Of(id), e);
    } else if Filter(events, Of(id)) != [] {
      FilterMember(events, Of(id), Filter(events, Of(id))[0]);
    }
  }

  function AddMissing(labels: seq<string>, more: seq<string>): seq<string>
    decreases |more|
  {
    if more == [] then labels
    else AddMissing(if more[0] in labels then labels else labels + [more[0]], more[1..])
  }

  /** How `KanbanBoard.cards` applies a patch to a card that is not voided. */
  function ApplyPatch(c: CardState, p: Patch): CardState {
    c.(status := if ParseColumn(p.column).Some? then ParseColumn(p.column).value else c.status,
       order := if p.order.Some? then p.order.value else c.order,
       priority := if Truthy(p.priority) then p.priority.value else c.priority,
       swimlane := if Truthy(p.swimlane) then p.swimlane.value else c.swimlane,
       labels := AddMissing(c.labels, p.labels),
       links := c.links + p.links,
       owner := if p.ownerSet then p.owner else c.owner,
       title := if p.title.Some? then p.title.value else c.title,
       description := if p.description.Some? then p.description.value else c.description)
  }

  // ----- The same events, mapped for the step fold -----

  /** `_OVERLAY_TO_STORE_ACTION`. */
  function StoreAction(a: OverlayAction): Action {
    match a
    case OMove => Move
    case OSetPriority => SetPriority
    case OSetSwimlane => SetSwimlane
    case OAddLabel => AddLabel
    case ORemoveLabel => RemoveLabel
    case OLink => SetLink
    case OVerdict => SetLink
    case OAssign => Assign
    case OUnassign => Unassign
    case ODescribe => Describe
  }

  function ToStore(e: OverlayEvent): Event {
    Event(e.key, StoreAction(e.action), None, None, e.column, e.order, e.priority, e.swimlane, e.label_,
          e.linkKey, e.linkValue, e.owner, e.title, e.description, None, None, None, None)
  }

  const TO_STORE: OverlayEvent -> Event := (e: OverlayEvent) => ToStore(e)

  /** `load_legacy_mutations` for one card: mapped in file order, not sorted. */
  function LegacyOf(events: seq<OverlayEvent>, id: string): seq<Event> {
    MapAll(Filter(events, Of(id)), TO_STORE)
  }

  /** The fields the two folds are compared on. */
  predicate SameBoardFields(a: CardState, b: CardState) {
    && a.status == b.status && a.order == b.order && a.priority == b.priority && a.swimlane == b.swimlane
    && a.labels == b.labels && a.links == b.links && a.owner == b.owner
    && a.title == b.title && a.description == b.description
  }

  /** What a caller can check of each event before folding it. */
  predicate Plain(base: CardState, e: OverlayEvent) {
    && Validated(e) && e.action != OVerdict
    && (e.column.Some? ==> ParseColumn(e.column).Some?)
    && (e.action == ORemoveLabel ==> e.label_.value !in base.labels)
  }

  /** Batch and step fold give one card the same board fields for a log. */
  ghost predicate AgreesOn(base: CardState, events: seq<OverlayEvent>, id: string) {
    SameBoardFields(ApplyPatch(base, PatchOf(events, id)), FoldEvents(base, Stream([], LegacyOf(events, id))))
  }

  /** Every event of the card of `e` in the log is `e` itself or plain. */
  ghost predicate PlainBut(base: CardState, events: seq<OverlayEvent>, e: OverlayEvent) {
    forall x :: x in events && x.cardId == e.cardId ==> x == e || Plain(base, x)
  }

  function NotIn(labels: seq<string>): string -> bool {
    (l: string) => l !in labels
  }

  lemma {:induction false} AddMissingIsFilter(labels: seq<string>, more: seq<string>)
    requires Distinct(more)
    ensures AddMissing(labels, more) == labels + Filter(more, NotIn(labels))
    decreases |more|
  {
    if more == [] {
      assert labels + [] == labels;
    } else if more[0] in labels {
      AddMissingIsFilter(labels, more[1..]);
      assert Filter(more, NotIn(labels)) == Filter(more[1..], NotIn(labels));
    } else {
      var x, rest := more[0], more[1..];
      assert Distinct(rest) by { assert forall i :: 0 <= i < |rest| ==> rest[i] == more[i + 1]; }
      AddMissingIsFilter(labels + [x], rest);
      OthersAreNew(labels, more);
      JoinOne(labels, x, Filter(rest, NotIn(labels)));
      assert Filter(more, NotIn(labels)) == [x] + Filter(rest, NotIn(labels));
    }
  }

  lemma JoinOne(a: seq<string>, x: string, b: seq<string>)
    ensures a + [x] + b == a + ([x] + b)
  {
  }

  /** Adding the first label changes nothing for the others, which differ from it. */
  lemma OthersAreNew(labels: seq<string>, more: seq<string>)
    requires Distinct(more) && more != []
    ensures Filter(more[1..], NotIn(labels + [more[0]])) == Filter(more[1..], NotIn(labels))
  {
    var x, rest := more[0], more[1..];
    forall y | y in rest ensures NotIn(labels)(y) == NotIn(labels + [x])(y) {
      var i :| 0 <= i < |rest| && rest[i] == y;
      assert more[i + 1] == y;
    }
    FilterAgree(rest, NotIn(labels), NotIn(labels + [x]));
  }

  lemma {:induction false} FilterRemove(s: seq<string>, x: string, keep: string -> bool)
    requires keep(x)
    ensures Filter(RemoveFirst(s, x), keep) == RemoveFirst(Filter(s, keep), x)
  {
    if s != [] {
      var rest := Filter(s[1..], keep);
      if s[0] == x {
        assert Filter(s, keep) == [x] + rest && ([x] + rest)[1..] == rest;
      } else {
        FilterRemove(s[1..], x, keep);
        var shorter := RemoveFirst(s[1..], x);
        assert RemoveFirst(s, x) == [s[0]] + shorter && ([s[0]] + shorter)[1..] == shorter;
        if keep(s[0]) {
          assert Filter(s, keep) == [s[0]] + rest && ([s[0]] + rest)[1..] == rest;
        } else {
          assert Filter(s, keep) == rest;
        }
      }
    }
  }

  lemma {:induction false} RemoveFromTail(a: seq<string>, b: seq<string>, x: string)
    requires x !in a
    ensures RemoveFirst(a + b, x) == a + RemoveFirst(b, x)
  {
    if a == [] {
      assert a + b == b && a + RemoveFirst(b, x) == RemoveFirst(b, x);
    } else {
      assert (a + b)[1..] == a[1..] + b;
      RemoveFromTail(a[1..], b, x);
      assert [a[0]] + (a[1..] + RemoveFirst(b, x)) == a + RemoveFirst(b, x);
    }
  }

  lemma LabelAdded(base: seq<string>, more: seq<string>, x: string)
    requires Distinct(more)
    ensures var now := AddMissing(base, more);
            AddMissing(base, if x in more then more else more + [x]) == if x in now then now else now + [x]
  {
    var keep := NotIn(base);
    AddMissingIsFilter(base, more);
    FilterMember(more, keep, x);
    if x !in more {
      AddMissingIsFilter(base, more + [x]);
      FilterSnoc(more, x, keep);
      assert base + (Filter(more, keep) + [x]) == base + Filter(more, keep) + [x];
      assert Filter(more, keep) + [] == Filter(more, keep);
    }
  }

  lemma LabelRemoved(base: seq<string>, more: seq<string>, x: string)
    requires Distinct(more) && x !in base
    ensures var now := AddMissing(base, more);
            AddMissing(base, if x in more then RemoveFirst(more, x) else more)
            == if x in now then RemoveFirst(now, x) else now
  {
    var keep := NotIn(base);
    AddMissingIsFilter(base, more);
    FilterMember(more, keep, x);
    if x in more {
      RemoveFirstKeepsDistinct(more, x);
      AddMissingIsFilter(base, RemoveFirst(more, x));
      FilterRemove(more, x, keep);
      RemoveFromTail(base, Filter(more, keep), x);
    }
  }

  /** The step fold's card is the base card with the patch so far applied to it. */
  ghost predicate Agrees(base: CardState, p: Patch, c: CardState) {
    && !c.voided && SameBoardFields(ApplyPatch(base, p), c) && Distinct(p.labels)
    && (p.column.Some? ==> ParseColumn(p.column).Some?)
    && (p.priority.Some? ==> Truthy(p.priority)) && (p.swimlane.Some? ==> Truthy(p.swimlane))
  }

  lemma AgreesWithLabels(base: CardState, p: Patch, c: CardState, more: seq<string>, labels: seq<string>, ts: string)
    requires Agrees(base, p, c) && Distinct(more) && AddMissing(base.labels, more) == labels
    ensures Agrees(base, p.(labels := more), c.(labels := labels, updatedAt := ts))
  {
  }

  lemma LabelSteps(p: Patch, c: CardState, e: OverlayEvent)
    requires e.action == OAddLabel || e.action == ORemoveLabel
    requires Validated(e) && !c.voided
    ensures var x := e.label_.value;
            if e.action == OAddLabel then
              && PatchStep(p, e) == p.(labels := if x in p.labels then p.labels else p.labels + [x])
              && Step(c, ToStore(e))
               == c.(labels := if x in c.labels then c.labels else c.labels + [x], updatedAt := e.key.ts)
            else
              && PatchStep(p, e) == p.(labels := if x in p.labels then RemoveFirst(p.labels, x) else p.labels)
              && Step(c, ToStore(e))
               == c.(labels := if x in c.labels then RemoveFirst(c.labels, x) else c.labels, updatedAt := e.key.ts)
  {
    assert e.label_.value != "";
  }

  lemma AgreesAfterLabel(base: CardState, p: Patch, c: CardState, e: OverlayEvent)
    requires e.action == OAddLabel || e.action == ORemoveLabel
    requires Agrees(base, p, c) && Plain(base, e)
    ensures Agrees(base, PatchStep(p, e), Step(c, ToStore(e)))
  {
    LabelSteps(p, c, e);
    LabelsFollow(base.labels, p.labels, e);
    AgreesWithLabels(base, p, c, PatchStep(p, e).labels, Step(c, ToStore(e)).labels, e.key.ts);
  }

  /** The label lists alone, whichever of the two actions it is. */
  lemma LabelsFollow(base: seq<string>, more: seq<string>, e: OverlayEvent)
    requires e.action == OAddLabel || e.action == ORemoveLabel
    requires e.label_.Some? && Distinct(more) && (e.action == ORemoveLabel ==> e.label_.value !in base)
    ensures var x, now := e.label_.value, AddMissing(base, more);
            if e.action == OAddLabel then
              var more' := if x in more then more else more + [x];
              Distinct(more') && AddMissing(base, more') == if x in now then now else now + [x]
            else
              var more' := if x in more then RemoveFirst(more, x) else more;
              Distinct(more') && AddMissing(base, more') == if x in now then RemoveFirst(now, x) else now
  {
    var x := e.label_.value;
    if e.action == OAddLabel {
      LabelAdded(base, more, x);
    } else {
      LabelRemoved(base, more, x);
      RemoveFirstKeepsDistinct(more, x);
    }
  }

  lemma AgreesAfter(base: CardState, p: Patch, c: CardState, e: OverlayEvent)
    requires Agrees(base, p, c) && Plain(base, e)
    ensures Agrees(base, PatchStep(p, e), Step(c, ToStore(e)))
  {
    if e.action == OAddLabel || e.action == ORemoveLabel {
      AgreesAfterLabel(base, p, c, e);
    } else if e.action == OLink {
      AgreesAfterLink(base, p, c, e);
    } else if e.action == OMove {
      AgreesAfterMove(base, p, c, e);
    } else if e.action == OAssign || e.action == OUnassign {
      AgreesAfterAssign(base, p, c, e);
    } else {
      AgreesAfterText(base, p, c, e);
    }
  }

  lemma AgreesAfterLink(base: CardState, p: Patch, c: CardState, e: OverlayEvent)
    requires Agrees(base, p, c) && Plain(base, e) && e.action == OLink
    ensures Agrees(base, PatchStep(p, e), Step(c, ToStore(e)))
  {
    assert base.links + p.links[e.linkKey.value := e.linkValue]
           == (base.links + p.links)[e.linkKey.value := e.linkValue];
  }

  lemma AgreesAfterAssign(base: CardState, p: Patch, c: CardState, e: OverlayEvent)
    requires Agrees(base, p, c) && Plain(base, e) && (e.action == OAssign || e.action == OUnassign)
    ensures Agrees(base, PatchStep(p, e), Step(c, ToStore(e)))
  {
  }

  lemma AgreesAfterText(base: CardState, p: Patch, c: CardState, e: OverlayEvent)
    requires Agrees(base, p, c) && Plain(base, e)
    requires e.action == OSetPriority || e.action == OSetSwimlane || e.action == ODescribe
    ensures Agrees(base, PatchStep(p, e), Step(c, ToStore(e)))
  {
    if e.action == ODescribe { AgreesAfterDescribe(base, p, c, e); } else { AgreesAfterRank(base, p, c, e); }
  }

  lemma AgreesAfterDescribe(base: CardState, p: Patch, c: CardState, e: OverlayEvent)
    requires Agrees(base, p, c) && Plain(base, e) && e.action == ODescribe
    ensures Agrees(base, PatchStep(p, e), Step(c, ToStore(e)))
  {
  }

  lemma AgreesAfterRank(base: CardState, p: Patch, c: CardState, e: OverlayEvent)
    requires Agrees(base, p, c) && Plain(base, e) && (e.action == OSetPriority || e.action == OSetSwimlane)
    ensures Agrees(base, PatchStep(p, e), Step(c, ToStore(e)))
  {
  }

  lemma AgreesAfterMove(base: CardState, p: Patch, c: CardState, e: OverlayEvent)
    requires Agrees(base, p, c) && Plain(base, e) && e.action == OMove
    ensures Agrees(base, PatchStep(p, e), Step(c, ToStore(e)))
  {
    assert e.column.Some? ==> PatchStep(p, e).column == e.column;
  }

  lemma {:induction false} BatchAgreesFrom(base: CardState, p: Patch, c: CardState, es: seq<OverlayEvent>)
    requires Agrees(base, p, c) && forall i :: 0 <= i < |es| ==> Plain(base, es[i])
    ensures Agrees(base, PatchAll(p, es), FoldEvents(c, MapAll(es, TO_STORE)))
    decreases |es|
  {
    if es != [] {
      AgreesAfter(base, p, c, es[0]);
      assert MapAll(es, TO_STORE)[1..] == MapAll(es[1..], TO_STORE);
      BatchAgreesFrom(base, PatchStep(p, es[0]), Step(c, ToStore(es[0])), es[1..]);
    }
  }

  lemma PatchOfOwnEvents(events: seq<OverlayEvent>, id: string)
    ensures PatchOf(events, id) == PatchAll(EMPTY_PATCH, StableSort(Filter(events, Of(id)), OVERLAY_KEY))
  {
    FilterSort(events, OVERLAY_KEY, Of(id));
  }

  lemma LegacyStream(events: seq<OverlayEvent>, id: string)
    ensures Stream([], LegacyOf(events, id)) == MapAll(StableSort(Filter(events, Of(id)), OVERLAY_KEY), TO_STORE)
  {
    MapSort(Filter(events, Of(id)), OVERLAY_KEY, TO_STORE, EVENT_KEY);
    assert [] + LegacyOf(events, id) == LegacyOf(events, id);
  }

  lemma SortedArePlain(base: CardState, events: seq<OverlayEvent>, id: string)
    requires forall e :: e in events && e.cardId == id ==> Plain(base, e)
    ensures var sorted := StableSort(Filter(events, Of(id)), OVERLAY_KEY);
            forall i :: 0 <= i < |sorted| ==> Plain(base, sorted[i])
  {
    var mine := Filter(events, Of(id));
    var sorted := StableSort(mine, OVERLAY_KEY);
    SortSorts(mine, OVERLAY_KEY);
    forall i | 0 <= i < |sorted| ensures Plain(base, sorted[i]) {
      assert sorted[i] in multiset(mine);
      FilterMember(events, Of(id), sorted[i]);
    }
  }

  /**
    Refinement: for any overlay log, whatever its order and whatever other cards
    it mentions, applying the batch patch of a card to its base gives the same
    board fields as folding that card's mapped events one by one.
  */
  lemma BatchRefinesStepFold(base: CardState, events: seq<OverlayEvent>, id: string)
    requires !base.voided
    requires forall e :: e in events && e.cardId == id ==> Plain(base, e)
    ensures AgreesOn(base, events, id)
  {
    PatchOfOwnEvents(events, id);
    LegacyStream(events, id);
    SortedArePlain(base, events, id);
    assert base.links + map[] == base.links;
    BatchAgreesFrom(base, EMPTY_PATCH, base, StableSort(Filter(events, Of(id)), OVERLAY_KEY));
  }

  // ----- Each exclusion is needed -----

  lemma OneLegacyEvent(base: CardState, legacy: seq<Event>)
    requires legacy != []
    ensures Stream([], legacy) == StableSort(legacy, EVENT_KEY)
  {
    assert [] + legacy == legacy;
  }

  lemma OneEvent(base: CardState, e: OverlayEvent)
    ensures PatchOf([e], e.cardId) == PatchStep(EMPTY_PATCH, e)
    ensures FoldEvents(base, Stream([], LegacyOf([e], e.cardId))) == Step(base, ToStore(e))
  {
    SortOne(e, OVERLAY_KEY);
    assert [e][1..] == [] && Filter([e], Of(e.cardId)) == [e];
    PatchAllSnoc(EMPTY_PATCH, [], e);
    assert [] + [e] == [e];
    assert MapAll([e], TO_STORE) == [ToStore(e)];
    OneLegacyEvent(base, [ToStore(e)]);
    SortOne(ToStore(e), EVENT_KEY);
    FoldOne(base, ToStore(e));
  }

  lemma KeepTwo(a: OverlayEvent, b: OverlayEvent, keep: OverlayEvent -> bool)
    requires keep(a) && keep(b)
    ensures Filter([a, b], keep) == [a, b]
  {
    FilterSnoc([], a, keep);
    FilterSnoc([a], b, keep);
    assert [] + [a] == [a] && [a] + [b] == [a, b];
  }

  lemma PatchTwo(a: OverlayEvent, b: OverlayEvent)
    ensures PatchAll(EMPTY_PATCH, [a, b]) == PatchStep(PatchStep(EMPTY_PATCH, a), b)
  {
    PatchAllSnoc(EMPTY_PATCH, [], a);
    PatchAllSnoc(EMPTY_PATCH, [a], b);
    assert [] + [a] == [a] && [a] + [b] == [a, b];
  }

  lemma TwoEvents(base: CardState, a: OverlayEvent, b: OverlayEvent)
    requires a.cardId == b.cardId && KeyLeq(a.key, b.key)
    ensures PatchOf([a, b], a.cardId) == PatchStep(PatchStep(EMPTY_PATCH, a), b)
    ensures FoldEvents(base, Stream([], LegacyOf([a, b], a.cardId))) == Step(Step(base, ToStore(a)), ToStore(b))
  {
    SortTwo(a, b, OVERLAY_KEY);
    KeepTwo(a, b, Of(a.cardId));
    PatchTwo(a, b);
    assert MapAll([a, b], TO_STORE) == [ToStore(a), ToStore(b)];
    OneLegacyEvent(base, [ToStore(a), ToStore(b)]);
    SortTwo(ToStore(a), ToStore(b), EVENT_KEY);
    FoldTwo(base, ToStore(a), ToStore(b));
  }

  lemma RemoveShortens(s: seq<string>, x: string)
    requires x in s
    ensures |RemoveFirst(s, x)| == |s| - 1
  {
  }

  /** The batch keeps a base label that the step fold removes. */
  lemma RemovedBaseLabelDiffers(base: CardState, e: OverlayEvent)
    requires !base.voided && Validated(e) && e.action == ORemoveLabel && e.label_.value in base.labels
    ensures !AgreesOn(base, [e], e.cardId)
  {
    OneEvent(base, e);
    RemoveShortens(base.labels, e.label_.value);
    assert PatchStep(EMPTY_PATCH, e).labels == [];
    assert ApplyPatch(base, PatchStep(EMPTY_PATCH, e)).labels == base.labels;
    assert Step(base, ToStore(e)).labels == RemoveFirst(base.labels, e.label_.value);
  }

  /** A plain link under the key of a verdict, with another value. */
  function LinkBefore(e: OverlayEvent): OverlayEvent
    requires e.linkValue.Some?
  {
    OverlayEvent(e.cardId, e.key, OLink, None, None, None, None, None, Some("verdict"), Some(e.linkValue.value + "!"),
                 None, None, None)
  }

  /** The batch ignores a verdict that the step fold stores as a link. */
  lemma VerdictDiffers(base: CardState, e: OverlayEvent)
    requires !base.voided && Validated(e) && e.action == OVerdict
    ensures Plain(base, LinkBefore(e)) && !AgreesOn(base, [LinkBefore(e), e], e.cardId)
  {
    var g := LinkBefore(e);
    LinkBeforeIsPlain(base, e);
    KeyTotal(e.key, e.key);
    TwoEvents(base, g, e);
    VerdictIsKept(base, g, e);
    LinkIsKept(base, g, e);
    assert |e.linkValue.value + "!"| != |e.linkValue.value|;
  }

  lemma LinkBeforeIsPlain(base: CardState, e: OverlayEvent)
    requires e.linkValue.Some?
    ensures Plain(base, LinkBefore(e))
  {
    assert 'v' in "verdict" && !Blank("verdict");
  }

  lemma LinkIsKept(base: CardState, g: OverlayEvent, e: OverlayEvent)
    requires g.action == OLink && g.linkKey == Some("verdict") && e.action == OVerdict
    ensures var links := ApplyPatch(base, PatchStep(PatchStep(EMPTY_PATCH, g), e)).links;
            "verdict" in links && links["verdict"] == g.linkValue
  {
    assert PatchStep(PatchStep(EMPTY_PATCH, g), e).links == map["verdict" := g.linkValue];
  }

  lemma VerdictIsKept(base: CardState, g: OverlayEvent, e: OverlayEvent)
    requires !base.voided && g.action == OLink && e.action == OVerdict && e.linkKey == Some("verdict")
    ensures var links := Step(Step(base, ToStore(g)), ToStore(e)).links;
            "verdict" in links && links["verdict"] == e.linkValue
  {
  }

  /** A plain move off the column a base card is in. */
  function MoveBefore(base: CardState, e: OverlayEvent): OverlayEvent {
    OverlayEvent(e.cardId, e.key, OMove, Some(if base.status == Doing then "ready" else "doing"), None, None, None,
                 None, None, None, None, None, None)
  }

  /** An unknown column hides an earlier good one from the batch only. */
  lemma UnknownColumnDiffers(base: CardState, e: OverlayEvent)
    requires !base.voided && Validated(e) && e.column.Some? && ParseColumn(e.column).None?
    ensures Plain(base, MoveBefore(base, e)) && !AgreesOn(base, [MoveBefore(base, e), e], e.cardId)
  {
    var g := MoveBefore(base, e);
    KeyTotal(e.key, e.key);
    TwoEvents(base, g, e);
    var p := PatchStep(PatchStep(EMPTY_PATCH, g), e);
    assert p.column == e.column && ApplyPatch(base, p).status == base.status;
    MoveIsKept(base, g, e);
  }

  lemma MoveIsKept(base: CardState, g: OverlayEvent, e: OverlayEvent)
    requires !base.voided && g.action == OMove && e.action == OMove
    requires ParseColumn(g.column).Some? && ParseColumn(e.column).None?
    ensures Step(Step(base, ToStore(g)), ToStore(e)).status == ParseColumn(g.column).value
  {
  }

  /**
    An event may be plain or not; it is plain exactly when it keeps batch and step
    fold in agreement on every log of otherwise plain events of its card.
  */
  lemma PlainExactly(base: CardState, e: OverlayEvent)
    requires !base.voided && Validated(e)
    ensures Plain(base, e) <==>
            (forall events :: PlainBut(base, events, e) ==> AgreesOn(base, events, e.cardId))
  {
    if Plain(base, e) {
      forall events | PlainBut(base, events, e) ensures AgreesOn(base, events, e.cardId) {
        BatchRefinesStepFold(base, events, e.cardId);
      }
    } else if e.action == OVerdict {
      VerdictDiffers(base, e);
      assert PlainBut(base, [LinkBefore(e), e], e);
    } else if e.column.Some? && ParseColumn(e.column).None? {
      UnknownColumnDiffers(base, e);
      assert PlainBut(base, [MoveBefore(base, e), e], e);
    } else {
      RemovedBaseLabelDiffers(base, e);
      assert PlainBut(base, [e], e);
    }
  }
}
