/**
  What a reconciled record reads, field by field, in terms of the item and of what
  the record read before (`discovery_reconcile.reconcile`, `discovery_syncthing.py`).
*/
module ReconcileLaws {
  import opened Ordering
  import opened Sequences
  import opened Wrappers
  import opened Cmdb
  import opened Reconcile

  // ----- The laws -----

  /** Whether a service's sync health decides its status, and what it says. */
  ghost predicate SyncSays(item: Item, state: string) {
    "sync-health" in item.tags && Get(item.attributes, "sync_health_state") == Some(Text(state))
  }

  ghost predicate SystemdSays(item: Item, state: string) {
    Get(item.attributes, "active_state") == Some(Text(state))
  }

  /** The observed state of a service is its health; nothing un-retires a record. */
  ghost predicate StatusLaw(before: Option<CI>, item: Item, status: string) {
    var was := if before.Some? then before.value.status else "operational";
    var service := item.observed && item.ciType == "service";
    var decided := SyncSays(item, "down") || SyncSays(item, "degraded")
                   || SyncSays(item, "healthy") || SyncSays(item, "syncing");
    && (was == "retired" ==> status == "retired")
    && (was != "retired" && service && SyncSays(item, "down") ==> status == "down")
    && (was != "retired" && service && SyncSays(item, "degraded") ==> status == "degraded")
    && (was != "retired" && service && SyncSays(item, "healthy") ==> status == "operational")
    && (was != "retired" && service && SyncSays(item, "syncing") ==> status == "operational")
    && (was != "retired" && service && !decided && SystemdSays(item, "active") ==> status == "operational")
    && (was != "retired" && service && !decided && SystemdSays(item, "failed") ==> status == "down")
    && (!service || (!decided && !SystemdSays(item, "active") && !SystemdSays(item, "failed")) ==> status == was)
  }

  /** What the item says under a key: its evidence first, then its attributes. */
  ghost predicate Says(item: Item, k: string, v: Value) {
    if k == "canonical_name" then v == Text(item.named)
    else if k == "aliases" then v == Texts(item.aliases)
    else if k == "observation_schema_version" then v == Number(item.schemaVersion)
    else if k == "source_authority" then
      v == Text(if item.authority != "" then item.authority else if item.observed then "observed" else "declared")
    else if k == "lifecycle_scope" && item.lifecycleScope != "" then v == Text(item.lifecycleScope)
    else if k == "observed_at" && item.observedAt != "" then v == Text(item.observedAt)
    else if k == "scan_id" && item.observedAt != "" then v == Text(item.scanId)
    else Get(item.attributes, k) == Some(v)
  }

  /** Every key reads what the item says, and what it read before where the item is silent. */
  ghost predicate AttributeLaw(before: Option<CI>, item: Item, attributes: Dict<Value>) {
    forall k :: k != "" || before.None? ==>
      && (forall v :: Says(item, k, v) ==> Read(attributes, k) == v)
      && ((forall v :: !Says(item, k, v)) ==>
            Read(attributes, k) == if before.Some? then Read(before.value.attributes, k) else Null)
  }

  /** A relationship of this pair that the item's authority accepts as its own. */
  ghost predicate ServedBy(rels: seq<Relationship>, item: Item, relType: string, target: Id) {
    exists s :: s in rels && s.relType == relType && s.target == target
                && (item.authority == "" || s.authority == "" || s.authority == item.authority)
  }

  /** A relationship of this pair that the item's authority recorded. */
  ghost predicate OwnedBy(rels: seq<Relationship>, item: Item, relType: string, target: Id) {
    item.authority != ""
    && exists s :: s in rels && s.relType == relType && s.target == target && s.authority == item.authority
  }

  /**
    A pair the item asks for is left as it was where it is served, and otherwise held
    under the item's authority alone. Any other pair goes if that authority recorded it.
  */
  ghost predicate RelationshipLaw(before: Option<CI>, item: Item, rels: seq<Relationship>) {
    var was := if before.Some? then before.value.relationships else [];
    forall r: Relationship :: r in rels <==>
      if (r.relType, r.target) in item.relationships then
        if ServedBy(was, item, r.relType, r.target) then r in was else r.authority == item.authority
      else r in was && !OwnedBy(was, item, r.relType, r.target)
  }

  /** The tag goes, because the item's authority set it and the item no longer names it. */
  ghost predicate TagGoes(before: CI, item: Item, t: string) {
    item.authority != "" && Get(before.authorities, t) == Some(item.authority) && t !in item.tags
  }

  ghost predicate TagLaw(before: Option<CI>, item: Item, after: CI) {
    forall t ::
      match before
      case None =>
        && (t in after.tags <==> t in item.tags)
        && Get(after.authorities, t) == if t in item.tags && t != "" && item.authority != "" then Some(item.authority)
                                        else None
      case Some(ci) =>
        && (t in after.tags <==> (t in item.tags && t != "") || (t in ci.tags && !TagGoes(ci, item, t)))
        && Get(after.authorities, t) ==
           if TagGoes(ci, item, t) then None
           else if t in item.tags && t != "" && t !in ci.tags && item.authority != "" then Some(item.authority)
           else Get(ci.authorities, t)
  }

  /** Metadata that the item has wins; type and owner never change. */
  ghost predicate MetadataLaw(before: Option<CI>, item: Item, after: CI) {
    match before
    case None =>
      after.name == item.name && after.description == item.description && after.node == item.node
      && after.ciType == item.ciType && after.owner == ""
    case Some(ci) =>
      && after.name == (if item.name != "" then item.name else ci.name)
      && after.description == (if item.description != "" then item.description else ci.description)
      && after.node == (if item.node != "" then item.node else ci.node)
      && after.ciType == ci.ciType && after.owner == ci.owner
  }

  ghost predicate ReadsAs(before: Option<CI>, item: Item, after: CI) {
    && StatusLaw(before, item, after.status)
    && AttributeLaw(before, item, after.attributes)
    && RelationshipLaw(before, item, after.relationships)
    && TagLaw(before, item, after)
    && MetadataLaw(before, item, after)
  }

  // ----- Attributes -----

  /** What an update of a dictionary reads. */
  lemma {:induction false} UpdateReads(d: Dict<Value>, e: Dict<Value>, k: string)
    requires KeysDiffer(e)
    ensures Get(Update(d, e), k) == if Get(e, k).Some? then Get(e, k) else Get(d, k)
    decreases |e|
  {
    if e != [] {
      var d1 := Put(d, e[0].0, e[0].1);
      DifferTail(e);
      GetAfterPut(d, e[0].0, e[0].1, k);
      UpdateReads(d1, e[1..], k);
      GetIsMember(e[1..], k);
    }
  }

  lemma EvidenceIs(item: Item, k: string)
    ensures KeysDiffer(Evidence(item))
    ensures Get(Evidence(item), k) ==
            if k == "canonical_name" then Some(Text(item.named))
            else if k == "aliases" then Some(Texts(item.aliases))
            else if k == "source_authority" then Some(Text(Authority(item)))
            else if k == "observation_schema_version" then Some(Number(item.schemaVersion))
            else if k == "lifecycle_scope" && item.lifecycleScope != "" then Some(Text(item.lifecycleScope))
            else if k == "observed_at" && item.observedAt != "" then Some(Text(item.observedAt))
            else if k == "scan_id" && item.observedAt != "" then Some(Text(item.scanId))
            else None
  {
    var scope := if item.lifecycleScope != "" then [("lifecycle_scope", Text(item.lifecycleScope))] else [];
    var scan := if item.observedAt != "" then [("observed_at", Text(item.observedAt)), ("scan_id", Text(item.scanId))]
                else [];
    var base := [("canonical_name", Text(item.named)), ("aliases", Texts(item.aliases)),
                 ("source_authority", Text(Authority(item))),
                 ("observation_schema_version", Number(item.schemaVersion))];
    assert Evidence(item) == base + scope + scan;
    GetConcat(base + scope, scan, k);
    GetConcat(base, scope, k);
    GetFour(base[0], base[1], base[2], base[3], k);
    if item.observedAt != "" { assert scan[1..] == [scan[1]] && scan[1..][1..] == []; }
  }

  lemma GetFour(a: (string, Value), b: (string, Value), c: (string, Value), d: (string, Value), k: string)
    ensures Get([a, b, c, d], k) == if k == a.0 then Some(a.1) else if k == b.0 then Some(b.1)
                                    else if k == c.0 then Some(c.1) else if k == d.0 then Some(d.1) else None
  {
    var all := [a, b, c, d];
    assert all[1..] == [b, c, d] && [b, c, d][1..] == [c, d] && [c, d][1..] == [d] && [d][1..] == [];
    assert Get([d], k) == if k == d.0 then Some(d.1) else None;
    assert Get([c, d], k) == if k == c.0 then Some(c.1) else Get([d], k);
    assert Get([b, c, d], k) == if k == b.0 then Some(b.1) else Get([c, d], k);
  }

  lemma {:induction false} GetConcat<V>(a: Dict<V>, b: Dict<V>, k: string)
    ensures Get(a + b, k) == if Get(a, k).Some? then Get(a, k) else Get(b, k)
  {
    if a == [] {
      assert a + b == b;
    } else {
      assert (a + b)[1..] == a[1..] + b;
      GetConcat(a[1..], b, k);
    }
  }

  /** What is desired under a key is what the item says there. */
  lemma DesiredSays(item: Item, k: string, v: Value)
    ensures Says(item, k, v) <==> Get(Desired(item), k) == Some(v)
  {
    EvidenceIs(item, k);
    UpdateReads(item.attributes, Evidence(item), k);
  }

  lemma AttributesRead(before: Option<CI>, item: Item, after: CI)
    requires ValidItem(item)
    requires after.attributes == if before.None? then Desired(item)
                                 else PutAll(before.value.attributes, Filter(Desired(item), Stale(before.value)))
    ensures AttributeLaw(before, item, after.attributes)
  {
    forall k | k != "" || before.None?
      ensures Read(after.attributes, k) ==
              if Get(Desired(item), k).Some? then Get(Desired(item), k).value
              else if before.Some? then Read(before.value.attributes, k) else Null
    {
      if before.Some? { ChangedReads(before.value, item, k); }
    }
    forall k, v ensures Says(item, k, v) <==> Get(Desired(item), k) == Some(v) {
      DesiredSays(item, k, v);
    }
    forall k ensures Get(Desired(item), k).Some? ==> exists v :: Says(item, k, v) {
      if Get(Desired(item), k).Some? { DesiredSays(item, k, Get(Desired(item), k).value); }
    }
  }

  lemma ChangedReads(ci: CI, item: Item, k: string)
    requires ValidItem(item) && k != ""
    ensures Read(PutAll(ci.attributes, Filter(Desired(item), Stale(ci))), k)
            == if Get(Desired(item), k).Some? then Get(Desired(item), k).value else Read(ci.attributes, k)
  {
    var desired, changed := Desired(item), Filter(Desired(item), Stale(ci));
    DesiredIs(item);
    FilterKeysDiffer(desired, Stale(ci));
    GetIsMember(desired, k);
    if p :| p in changed && p.0 == k {
      FilterMember(desired, Stale(ci), p);
      MemberIsGet(desired, p);
      PutAllReads(ci.attributes, changed, p);
    } else {
      PutAllOther(ci.attributes, changed, k);
      if Get(desired, k).Some? { FilterMember(desired, Stale(ci), (k, Get(desired, k).value)); }
    }
  }

  // ----- Relationships -----

  /** A pair that is related is held under the authority alone; the others stay. */
  lemma {:induction false} RelateAllIs(rels: seq<Relationship>, pairs: seq<(string, Id)>, a: string, r: Relationship)
    requires forall p :: p in pairs ==> p.1 != ""
    ensures r in RelateAll(rels, pairs, a)
            <==> if (r.relType, r.target) in pairs then r.authority == a else r in rels
    decreases |pairs|
  {
    if pairs != [] {
      var front, last := pairs[..|pairs| - 1], pairs[|pairs| - 1];
      assert pairs == front + [last] && forall p :: p in front ==> p in pairs;
      RelateAllIs(rels, front, a, r);
      FilterMember(RelateAll(rels, front, a), Others(last.0, last.1), r);
    }
  }

  lemma RelationshipsRead(before: Option<CI>, item: Item, rels: seq<Relationship>)
    requires ValidItem(item)
    requires rels == if before.None? then RelateAll([], item.relationships, item.authority)
                     else UnrelateAll(RelateAll(before.value.relationships, MissingRelationships(before.value, item),
                                                item.authority), StaleRelationships(before.value, item))
    ensures RelationshipLaw(before, item, rels)
  {
    forall r: Relationship
      ensures var was := if before.Some? then before.value.relationships else [];
              r in rels <==>
              if (r.relType, r.target) in item.relationships then
                if ServedBy(was, item, r.relType, r.target) then r in was else r.authority == item.authority
              else r in was && !OwnedBy(was, item, r.relType, r.target)
    {
      if before.None? {
        RelateAllIs([], item.relationships, item.authority, r);
      } else {
        OneRelationship(before.value, item, r);
      }
    }
  }

  lemma OneRelationship(ci: CI, item: Item, r: Relationship)
    requires ValidItem(item)
    ensures r in UnrelateAll(RelateAll(ci.relationships, MissingRelationships(ci, item), item.authority),
                             StaleRelationships(ci, item)) <==>
            if (r.relType, r.target) in item.relationships then
              if ServedBy(ci.relationships, item, r.relType, r.target) then r in ci.relationships
              else r.authority == item.authority
            else r in ci.relationships && !OwnedBy(ci.relationships, item, r.relType, r.target)
  {
    var missing, stale := MissingRelationships(ci, item), StaleRelationships(ci, item);
    var pair := (r.relType, r.target);
    MissingIs(ci, item, pair);
    StaleIs(ci, item, pair);
    forall p | p in missing ensures p.1 != "" { MissingIs(ci, item, p); }
    RelateAllIs(ci.relationships, missing, item.authority, r);
    UnrelatesDrop(RelateAll(ci.relationships, missing, item.authority), stale, r);
  }

  lemma MissingIs(ci: CI, item: Item, p: (string, Id))
    ensures p in MissingRelationships(ci, item)
            <==> p in item.relationships && !ServedBy(ci.relationships, item, p.0, p.1)
  {
    FilterMember(item.relationships, (q: (string, Id)) => !HasRelationship(ci.relationships, q, item.authority), p);
    if s :| s in ci.relationships && s.relType == p.0 && s.target == p.1
            && (item.authority == "" || s.authority == "" || s.authority == item.authority) {
      assert Serves(s, p, item.authority);
    }
  }

  lemma StaleIs(ci: CI, item: Item, p: (string, Id))
    ensures p in StaleRelationships(ci, item)
            <==> p !in item.relationships && OwnedBy(ci.relationships, item, p.0, p.1)
  {
    var stale := Filter(ci.relationships, IsStale(item));
    if p in StaleRelationships(ci, item) {
      var k :| 0 <= k < |stale| && MapAll(stale, PAIR)[k] == p;
      FilterMember(ci.relationships, IsStale(item), stale[k]);
    }
    if p !in item.relationships && OwnedBy(ci.relationships, item, p.0, p.1) {
      var s :| s in ci.relationships && s.relType == p.0 && s.target == p.1 && s.authority == item.authority;
      StalePair(ci, item, p);
      assert Pair(s) == p;
    }
  }

  // ----- Tags -----

  lemma TagsRead(ci: CI, before: CI, item: Item, t: string)
    requires AuthoritiesSound(ci) && before.tags == ci.tags && before.authorities == ci.authorities
    ensures var after := UntagAll(TagAll(before, MissingTags(ci, item), item.authority), StaleTags(ci, item),
                                  item.authority);
            && after == before.(tags := after.tags, authorities := after.authorities)
            && (t in after.tags <==> (t in item.tags && t != "") || (t in ci.tags && !TagGoes(ci, item, t)))
            && Get(after.authorities, t) ==
               if TagGoes(ci, item, t) then None
               else if t in item.tags && t != "" && t !in ci.tags && item.authority != "" then Some(item.authority)
               else Get(ci.authorities, t)
  {
    var a, missing, stale := item.authority, MissingTags(ci, item), StaleTags(ci, item);
    var tagged := TagAll(before, missing, a);
    MissingTagsHolds(ci, item, t);
    StaleTagsHolds(ci, item, t);
    TagAllIs(before, missing, a, t);
    if a == "" {
      if stale != [] { StaleTagsHolds(ci, item, stale[0]); }
    } else {
      forall u | u in stale ensures u != "" { StaleTagsHolds(ci, item, u); }
      UntagAllIs(tagged, stale, a, t);
    }
  }

  // ----- One item -----

  lemma UpdateReadsAs(ci: CI, item: Item)
    requires ValidItem(item) && AuthoritiesSound(ci)
    ensures ReadsAs(Some(ci), item, UpdatedCI(ci, item))
  {
    var c, after := ChangesOf(ci, item), UpdatedCI(ci, item);
    var before := ci.(attributes := PutAll(ci.attributes, c.attributes),
                      status := if c.status.Some? then c.status.value else ci.status,
                      relationships := UnrelateAll(RelateAll(ci.relationships, c.missing, item.authority), c.stale),
                      name := Or(item.name, ci.name), description := Or(item.description, ci.description),
                      node := Or(item.node, ci.node));
    TagsRead(ci, before, item, "");
    assert TagLaw(Some(ci), item, after) by {
      forall t
        ensures t in after.tags <==> (t in item.tags && t != "") || (t in ci.tags && !TagGoes(ci, item, t))
        ensures Get(after.authorities, t) ==
                if TagGoes(ci, item, t) then None
                else if t in item.tags && t != "" && t !in ci.tags && item.authority != "" then Some(item.authority)
                else Get(ci.authorities, t)
      {
        TagsRead(ci, before, item, t);
      }
    }
    AttributesRead(Some(ci), item, after);
    RelationshipsRead(Some(ci), item, after.relationships);
    StatusReads(Some(ci), item, after.status);
  }

  lemma StatusReads(before: Option<CI>, item: Item, status: string)
    requires var was := if before.Some? then before.value.status else OPERATIONAL;
             status == if ObservedStatus(item).Some? && was != RETIRED then ObservedStatus(item).value else was
    ensures StatusLaw(before, item, status)
  {
  }

  lemma NewFolds(item: Item)
    ensures var r, a := NewRecord(item), item.authority;
            var start := FromCore(r.core);
            var tagged := if a != "" then TagAll(start, item.tags, a) else start;
            var derived := ObservedStatus(item);
            FoldRecord(r) == tagged.(status := if derived.Some? then derived.value else OPERATIONAL,
                                     relationships := RelateAll([], item.relationships, a))
  {
    var r, a := NewRecord(item), item.authority;
    var start := FromCore(r.core);
    var e1 := if a != "" then MapAll(item.tags, TagAs(a)) else [];
    var derived := ObservedStatus(item);
    var status := if derived == Some(OPERATIONAL) then None else derived;
    var e2, e3 := StatusEvents(status), MapAll(item.relationships, RelateAs(a));
    FoldConcat(start, e1, e2);
    FoldConcat(start, e1 + e2, e3);
    FoldTags(start, item.tags, a);
    TagAllIs(start, item.tags, a, "");
    var c1 := FoldFrom(start, e1);
    FoldStatus(c1, status);
    FoldRelates(FoldFrom(c1, e2), item.relationships, a);
  }

  lemma NewReads(item: Item, t: string)
    ensures var after := FoldRecord(NewRecord(item));
            && after.attributes == Desired(item)
            && after.relationships == RelateAll([], item.relationships, item.authority)
            && after.status == (if ObservedStatus(item).Some? then ObservedStatus(item).value else OPERATIONAL)
            && after.name == item.name && after.description == item.description && after.node == item.node
            && after.ciType == item.ciType && after.owner == ""
            && (t in after.tags <==> t in item.tags)
            && Get(after.authorities, t)
               == if t in item.tags && t != "" && item.authority != "" then Some(item.authority) else None
  {
    NewFolds(item);
    TagAllIs(FromCore(NewRecord(item).core), item.tags, item.authority, t);
  }

  lemma NewReadsAs(item: Item)
    requires ValidItem(item)
    ensures ReadsAs(None, item, FoldRecord(NewRecord(item)))
  {
    var after := FoldRecord(NewRecord(item));
    NewReads(item, "");
    assert TagLaw(None, item, after) by {
      forall t
        ensures t in after.tags <==> t in item.tags
        ensures Get(after.authorities, t)
                == if t in item.tags && t != "" && item.authority != "" then Some(item.authority) else None
      {
        NewReads(item, t);
      }
    }
    AttributesRead(None, item, after);
    RelationshipsRead(None, item, after.relationships);
    StatusReads(None, item, after.status);
  }

  /** After an applied item its record reads as the laws say, whatever it read before. */
  lemma AppliedReadsAs(r: Option<Record>, item: Item)
    requires ValidItem(item)
    ensures ReadsAs(if r.Some? then Some(FoldRecord(r.value)) else None, item, FoldRecord(Applied(r, item)))
  {
    if r.None? {
      NewReadsAs(item);
    } else {
      var ci := FoldRecord(r.value);
      FoldIsSound(r.value);
      FoldConcat(FromCore(r.value.core), r.value.events, UpdateEvents(ChangesOf(ci, item), item));
      UpdateFolds(ci, item);
      UpdateReadsAs(ci, item);
    }
  }

  // ----- A batch -----

  /** The item of a batch that stands for an id is the last one of that id. */
  lemma {:induction false} LastOfIdStands(items: seq<Item>, i: nat)
    requires i < |items| && forall j :: i < j < |items| ==> items[j].id != items[i].id
    ensures Get(ById(items), items[i].id) == Some(items[i])
  {
    var front, last := items[..|items| - 1], items[|items| - 1];
    GetAfterPut(ById(front), last.id, last, items[i].id);
    if i < |items| - 1 { LastOfIdStands(front, i); }
  }

  lemma {:induction false} OnlyItemsStand(items: seq<Item>, id: Id)
    ensures Get(ById(items), id).Some? <==> id in IdsOf(items)
  {
    if items != [] {
      var front, last := items[..|items| - 1], items[|items| - 1];
      GetAfterPut(ById(front), last.id, last, id);
      OnlyItemsStand(front, id);
      assert IdsOf(items) == IdsOf(front) + {last.id};
    }
  }

  /** Known type, a name that is not blank, and known relationships to other known items. */
  predicate Acceptable(item: Item, known: set<Id>) {
    && item.ciType in {"service", "host", "agent", "credential", "port", "datastore", "network", "device"}
    && (exists c :: c in item.named && !Space(c))
    && forall p :: p in item.relationships ==>
         && p.0 in {"depends_on", "runs_on", "hosts", "connects_to", "alias_of"}
         && p.1 != item.id && p.1 in known
  }

  lemma AcceptableExactly(item: Item, known: set<Id>)
    ensures ItemFailures(item, known) == [] <==> Acceptable(item, known)
  {
    NoRelationshipFailures(item, item.relationships, known);
  }

  /** A batch is valid exactly when every item of it is acceptable. */
  lemma {:induction false} ValidExactly(items: seq<Item>, known: set<Id>)
    ensures FailuresOver(items, known) == [] <==> forall item :: item in items ==> Acceptable(item, known)
    decreases |items|
  {
    if items != [] {
      var front, last := items[..|items| - 1], items[|items| - 1];
      assert items == front + [last];
      ValidExactly(front, known);
      AcceptableExactly(last, known);
    }
  }

  lemma ReconciledAt(store: Store, items: seq<Item>, id: Id)
    requires FailuresOf(store, items) == []
    ensures var d, after := ById(items), Reconciled(store, items);
            && (id in after <==> id in store || id in IdsOf(items))
            && (id !in IdsOf(items) && id in store ==> after[id] == store[id])
            && (Get(d, id).Some? ==> id in after && after[id] == Applied(At(store, id), Get(d, id).value))
  {
    ByIdHolds(items);
    ApplyOverAt(store, ById(items), id);
    OnlyItemsStand(items, id);
  }

  lemma ItemIsValid(store: Store, items: seq<Item>, i: nat)
    requires WellFormed(store, items) && FailuresOf(store, items) == []
    requires i < |items| && Get(ById(items), items[i].id) == Some(items[i])
    ensures ValidItem(items[i])
  {
    ValidatedItems(store, items);
    GetIsMember(ById(items), items[i].id);
  }

  /** An applied run adds the items' ids and touches no other record. */
  lemma OthersAreKept(store: Store, items: seq<Item>)
    requires FailuresOf(store, items) == []
    ensures var after := Reconciled(store, items);
            && after.Keys == store.Keys + IdsOf(items)
            && forall id :: id in store && id !in IdsOf(items) ==> after[id] == store[id]
  {
    forall id
      ensures id in Reconciled(store, items) <==> id in store || id in IdsOf(items)
      ensures id !in IdsOf(items) && id in store ==> Reconciled(store, items)[id] == store[id]
    {
      ReconciledAt(store, items, id);
    }
  }

  /**
    After an applied run of a valid batch every item's record reads as the laws say, in
    terms of what it read before the run.
  */
  lemma ReconciledReadsAs(store: Store, items: seq<Item>, i: nat)
    requires WellFormed(store, items) && FailuresOf(store, items) == []
    requires i < |items| && forall j :: i < j < |items| ==> items[j].id != items[i].id
    ensures var after, id := Reconciled(store, items), items[i].id;
            id in after && ReadsAs(Current(store, id), items[i], FoldRecord(after[id]))
  {
    LastOfIdStands(items, i);
    ItemIsValid(store, items, i);
    AppliedReadsAs(At(store, items[i].id), items[i]);
    ReconciledAt(store, items, items[i].id);
  }

  // ----- The report -----

  /** Each id is reported once, by what its record lacks; orphans are discovered records that no item names. */
  ghost predicate ReportLaw(store: Store, d: Dict<Item>, r: Report, id: Id) {
    && (id in r.created <==> Get(d, id).Some? && id !in store)
    && (id in r.unaltered <==> Get(d, id).Some? && id in store
                               && ChangesOf(FoldRecord(store[id]), Get(d, id).value) == NO_CHANGES)
    && (forall c :: (id, c) in r.updated <==> Get(d, id).Some? && id in store && c != NO_CHANGES
                                              && c == ChangesOf(FoldRecord(store[id]), Get(d, id).value))
  }

  lemma {:induction false} ReportIs(store: Store, d: Dict<Item>, id: Id)
    requires KeysDiffer(d)
    ensures ReportLaw(store, d, ReportOver(store, d), id)
    decreases |d|
  {
    if d != [] {
      var front, last := d[..|d| - 1], d[|d| - 1];
      assert d == front + [last];
      ReportIs(store, front, id);
      GetSnoc(front, last, id);
      ReportStep(ReportOver(store, front), Current(store, last.0), last.1, last.0, id);
    }
  }

  lemma ReportStep(r: Report, current: Option<CI>, item: Item, itemId: Id, id: Id)
    ensures var after := ReportItem(r, current, item, itemId);
            && (id in after.created <==> id in r.created || (id == itemId && current.None?))
            && (id in after.unaltered <==>
                (id in r.unaltered || (id == itemId && current.Some? && ChangesOf(current.value, item) == NO_CHANGES)))
            && (forall c :: (id, c) in after.updated <==>
                ((id, c) in r.updated
                 || (id == itemId && current.Some? && c == ChangesOf(current.value, item) && c != NO_CHANGES)))
  {
  }

  /** The relationships of an id that a report shows, by whether they are added or dropped. */
  ghost predicate Shown(store: Store, d: Dict<Item>, change: RelationshipChange) {
    && Get(d, change.id).Some?
    && var item, pair := Get(d, change.id).value, (change.relType, change.target);
       if change.id !in store then change.adds && pair in item.relationships
       else
         var rels := FoldRecord(store[change.id]).relationships;
         if change.adds then pair in item.relationships && !ServedBy(rels, item, change.relType, change.target)
         else pair !in item.relationships && OwnedBy(rels, item, change.relType, change.target)
  }

  lemma MapReports(pairs: seq<(string, Id)>, id: Id, adds: bool, change: RelationshipChange)
    ensures change in MapAll(pairs, Reports(id, adds))
            <==> change.id == id && change.adds == adds && (change.relType, change.target) in pairs
  {
    var all := MapAll(pairs, Reports(id, adds));
    if change in all {
      var k :| 0 <= k < |all| && all[k] == change;
      assert pairs[k] == (change.relType, change.target);
    }
    if (change.relType, change.target) in pairs && change.id == id && change.adds == adds {
      var k :| 0 <= k < |pairs| && pairs[k] == (change.relType, change.target);
      assert all[k] == change;
    }
  }

  lemma ShownStep(r: Report, current: Option<CI>, item: Item, id: Id, change: RelationshipChange)
    ensures change in ReportItem(r, current, item, id).relationships <==>
            (change in r.relationships
             || (change.id == id
                 && var pair := (change.relType, change.target);
                    if current.None? then change.adds && pair in item.relationships
                    else if change.adds then
                      pair in item.relationships
                      && !ServedBy(current.value.relationships, item, change.relType, change.target)
                    else
                      pair !in item.relationships
                      && OwnedBy(current.value.relationships, item, change.relType, change.target)))
  {
    if current.None? {
      MapReports(item.relationships, id, true, change);
    } else {
      var c := ChangesOf(current.value, item);
      MapReports(c.missing, id, true, change);
      MapReports(c.stale, id, false, change);
      MissingIs(current.value, item, (change.relType, change.target));
      StaleIs(current.value, item, (change.relType, change.target));
    }
  }

  /** A report shows exactly the relationships that an applied run adds and drops. */
  lemma {:induction false} RelationshipsShown(store: Store, d: Dict<Item>, change: RelationshipChange)
    requires KeysDiffer(d)
    ensures change in ReportOver(store, d).relationships <==> Shown(store, d, change)
    decreases |d|
  {
    if d != [] {
      var front, last := d[..|d| - 1], d[|d| - 1];
      assert d == front + [last];
      RelationshipsShown(store, front, change);
      GetSnoc(front, last, change.id);
      ShownStep(ReportOver(store, front), Current(store, last.0), last.1, last.0, change);
    }
  }

  /** What a valid batch reports, applied or not. */
  lemma ReportExactly(store: Store, items: seq<Item>, complete: bool, id: Id)
    requires FailuresOf(store, items) == []
    ensures ReportLaw(store, ById(items), ReportOf(store, items, complete), id)
    ensures forall change :: change in ReportOf(store, items, complete).relationships
                             <==> Shown(store, ById(items), change)
    ensures id in ReportOf(store, items, complete).orphans
            <==> complete && id in store && id !in IdsOf(items)
                 && "discovered" in FoldRecord(store[id]).tags && FoldRecord(store[id]).status != "retired"
  {
    ByIdHolds(items);
    ReportIs(store, ById(items), id);
    forall change
      ensures change in ReportOf(store, items, complete).relationships <==> Shown(store, ById(items), change)
    {
      RelationshipsShown(store, ById(items), change);
    }
    OnlyItemsStand(items, id);
  }
}
