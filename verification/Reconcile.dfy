/**
  Converging the database on one batch of discovered items (`discovery_reconcile.py`),
  for items that are neither hosts nor devices.
*/
module Reconcile {
  import opened Ordering
  import opened Sequences
  import opened Wrappers
  import opened Cmdb

  /** One merged and redacted sighting, under its id. `named` is `canonical_name or name`. */
  datatype Item = Item(
    id: Id, ciType: string, name: string, named: string, observed: bool, node: string, description: string,
    attributes: Dict<Value>, tags: seq<string>, relationships: seq<(string, Id)>, aliases: seq<string>,
    observedAt: string, scanId: string, authority: string, lifecycleScope: string, schemaVersion: int)

  // ----- What an item asks for -----

  /** `{**d, **e}`. */
  function Update(d: Dict<Value>, e: Dict<Value>): Dict<Value>
    decreases |e|
  {
    if e == [] then d else Update(Put(d, e[0].0, e[0].1), e[1..])
  }

  function Authority(item: Item): string {
    if item.authority != "" then item.authority else if item.observed then "observed" else "declared"
  }

  function Evidence(item: Item): Dict<Value> {
    [("canonical_name", Text(item.named)), ("aliases", Texts(item.aliases)),
     ("source_authority", Text(Authority(item))), ("observation_schema_version", Number(item.schemaVersion))]
    + (if item.lifecycleScope != "" then [("lifecycle_scope", Text(item.lifecycleScope))] else [])
    + (if item.observedAt != "" then [("observed_at", Text(item.observedAt)), ("scan_id", Text(item.scanId))] else [])
  }

  function Desired(item: Item): Dict<Value> {
    Update(item.attributes, Evidence(item))
  }

  /** The status that a service's observed state implies, if any. */
  function ObservedStatus(item: Item): Option<string> {
    if !item.observed || item.ciType != "service" then None
    else
      var health := Read(item.attributes, "sync_health_state");
      var state := Read(item.attributes, "active_state");
      if "sync-health" in item.tags && health == Text("down") then Some(DOWN)
      else if "sync-health" in item.tags && health == Text("degraded") then Some(DEGRADED)
      else if "sync-health" in item.tags && health in {Text("healthy"), Text("syncing")} then Some(OPERATIONAL)
      else if state == Text("active") then Some(OPERATIONAL)
      else if state == Text("failed") then Some(DOWN)
      else None
  }

  // ----- How an item differs from its record -----

  function Stale(ci: CI): ((string, Value)) -> bool {
    (p: (string, Value)) => Read(ci.attributes, p.0) != p.1
  }

  predicate Serves(r: Relationship, pair: (string, Id), authority: string) {
    r.relType == pair.0 && r.target == pair.1 && (authority == "" || r.authority == "" || r.authority == authority)
  }

  predicate HasRelationship(rels: seq<Relationship>, pair: (string, Id), authority: string) {
    exists r :: r in rels && Serves(r, pair, authority)
  }

  function Pair(r: Relationship): (string, Id) {
    (r.relType, r.target)
  }

  const PAIR: Relationship -> (string, Id) := (r: Relationship) => Pair(r)

  function MissingRelationships(ci: CI, item: Item): seq<(string, Id)> {
    Filter(item.relationships, (p: (string, Id)) => !HasRelationship(ci.relationships, p, item.authority))
  }

  function StaleRelationships(ci: CI, item: Item): seq<(string, Id)> {
    MapAll(Filter(ci.relationships, IsStale(item)), PAIR)
  }

  function IsStale(item: Item): Relationship -> bool {
    (r: Relationship) => item.authority != "" && r.authority == item.authority && Pair(r) !in item.relationships
  }

  function MetadataChanges(ci: CI, item: Item): seq<(string, string)> {
    MaybeSet("name", item.name, ci.name) + MaybeSet("description", item.description, ci.description)
    + MaybeSet("node", item.node, ci.node)
  }

  /** A mutable field is set when the item has a value for it and the record another. */
  function MaybeSet(field_: string, value: string, now: string): seq<(string, string)> {
    if value != "" && now != value then [(field_, value)] else []
  }

  const TEXT_KEY: string -> Key := (t: string) => Key(t, "", 0)
  const FIRST: ((string, string)) -> string := (p: (string, string)) => p.0

  function SortTexts(s: seq<string>): seq<string> {
    StableSort(s, TEXT_KEY)
  }

  function MissingTags(ci: CI, item: Item): seq<string> {
    SortTexts(Filter(Dedupe(item.tags), (t: string) => t !in ci.tags))
  }

  function StaleTags(ci: CI, item: Item): seq<string> {
    var goes := (p: (string, string)) => p.1 == item.authority && p.0 !in item.tags;
    SortTexts(MapAll(Filter(ci.authorities, goes), FIRST))
  }

  function StatusChange(ci: CI, item: Item): Option<string> {
    var derived := ObservedStatus(item);
    if derived.Some? && ci.status != RETIRED && ci.status != derived.value then derived else None
  }

  /** Everything the report says about an updated item. */
  datatype Changes = Changes(
    attributes: Dict<Value>, status: Option<string>, missing: seq<(string, Id)>, stale: seq<(string, Id)>,
    metadata: seq<(string, string)>, added: seq<string>, removed: seq<string>)

  const NO_CHANGES := Changes([], None, [], [], [], [], [])

  function ChangesOf(ci: CI, item: Item): Changes {
    Changes(Filter(Desired(item), Stale(ci)), StatusChange(ci, item), MissingRelationships(ci, item),
            StaleRelationships(ci, item), MetadataChanges(ci, item), MissingTags(ci, item), StaleTags(ci, item))
  }

  // ----- The events it appends -----

  const ATTRIBUTE: ((string, Value)) -> Event := (p: (string, Value)) => SetAttribute(p.0, p.1)
  const METADATA: ((string, string)) -> Event := (p: (string, string)) => SetMetadata(p.0, p.1)
  const UNRELATE: ((string, Id)) -> Event := (p: (string, Id)) => Unrelate(p.0, p.1)

  function RelateAs(authority: string): ((string, Id)) -> Event {
    (p: (string, Id)) => Relate(p.0, p.1, authority)
  }

  function TagAs(authority: string): string -> Event {
    (t: string) => Tag(t, authority)
  }

  function UntagAs(authority: string): string -> Event {
    (t: string) => Untag(t, authority)
  }

  function StatusEvents(status: Option<string>): seq<Event> {
    if status.Some? then [SetStatus(status.value)] else []
  }

  function UpdateEvents(c: Changes, item: Item): seq<Event> {
    MapAll(c.attributes, ATTRIBUTE) + StatusEvents(c.status) + MapAll(c.missing, RelateAs(item.authority))
    + MapAll(c.stale, UNRELATE) + MapAll(c.metadata, METADATA) + MapAll(c.added, TagAs(item.authority))
    + MapAll(c.removed, UntagAs(item.authority))
  }

  function NewRecord(item: Item): Record {
    var core := Core(item.ciType, item.name, item.description, "", item.node, Desired(item), item.tags);
    var derived := ObservedStatus(item);
    Record(core,
           (if item.authority != "" then MapAll(item.tags, TagAs(item.authority)) else [])
           + StatusEvents(if derived == Some(OPERATIONAL) then None else derived)
           + MapAll(item.relationships, RelateAs(item.authority)))
  }

  /** The record of `item` once it has been applied. */
  function Applied(r: Option<Record>, item: Item): Record {
    if r.None? then NewRecord(item)
    else r.value.(events := r.value.events + UpdateEvents(ChangesOf(FoldRecord(r.value), item), item))
  }

  // ----- What each group of events does to the folded item -----

  function PutAll(d: Dict<Value>, e: Dict<Value>): Dict<Value>
    decreases |e|
  {
    if e == [] then d
    else
      var before := PutAll(d, e[..|e| - 1]);
      if e[|e| - 1].0 == "" then before else Put(before, e[|e| - 1].0, e[|e| - 1].1)
  }

  lemma MapSnoc<T, U>(s: seq<T>, f: T -> U)
    requires s != []
    ensures MapAll(s, f) == MapAll(s[..|s| - 1], f) + [f(s[|s| - 1])]
  {
  }

  lemma {:induction false} FoldAttributes(ci: CI, e: Dict<Value>)
    ensures FoldFrom(ci, MapAll(e, ATTRIBUTE)) == ci.(attributes := PutAll(ci.attributes, e))
    decreases |e|
  {
    if e != [] {
      MapSnoc(e, ATTRIBUTE);
      FoldSnoc(ci, MapAll(e[..|e| - 1], ATTRIBUTE), ATTRIBUTE(e[|e| - 1]));
      FoldAttributes(ci, e[..|e| - 1]);
    }
  }

  function RelateAll(rels: seq<Relationship>, pairs: seq<(string, Id)>, authority: string): seq<Relationship>
    decreases |pairs|
  {
    if pairs == [] then rels
    else
      var before, p := RelateAll(rels, pairs[..|pairs| - 1], authority), pairs[|pairs| - 1];
      if p.1 == "" then before else Filter(before, Others(p.0, p.1)) + [Relationship(p.0, p.1, authority)]
  }

  lemma {:induction false} FoldRelates(ci: CI, pairs: seq<(string, Id)>, authority: string)
    ensures FoldFrom(ci, MapAll(pairs, RelateAs(authority)))
            == ci.(relationships := RelateAll(ci.relationships, pairs, authority))
    decreases |pairs|
  {
    if pairs != [] {
      var front, last := pairs[..|pairs| - 1], pairs[|pairs| - 1];
      MapSnoc(pairs, RelateAs(authority));
      assert MapAll(pairs, RelateAs(authority))
             == MapAll(front, RelateAs(authority)) + [Relate(last.0, last.1, authority)];
      FoldSnoc(ci, MapAll(front, RelateAs(authority)), Relate(last.0, last.1, authority));
      FoldRelates(ci, front, authority);
    }
  }

  function UnrelateAll(rels: seq<Relationship>, pairs: seq<(string, Id)>): seq<Relationship>
    decreases |pairs|
  {
    if pairs == [] then rels
    else Filter(UnrelateAll(rels, pairs[..|pairs| - 1]), Others(pairs[|pairs| - 1].0, pairs[|pairs| - 1].1))
  }

  lemma {:induction false} FoldUnrelates(ci: CI, pairs: seq<(string, Id)>)
    ensures FoldFrom(ci, MapAll(pairs, UNRELATE)) == ci.(relationships := UnrelateAll(ci.relationships, pairs))
    decreases |pairs|
  {
    if pairs != [] {
      var front, last := pairs[..|pairs| - 1], pairs[|pairs| - 1];
      MapSnoc(pairs, UNRELATE);
      assert MapAll(pairs, UNRELATE) == MapAll(front, UNRELATE) + [Unrelate(last.0, last.1)];
      FoldSnoc(ci, MapAll(front, UNRELATE), Unrelate(last.0, last.1));
      FoldUnrelates(ci, front);
    }
  }

  function TagAll(ci: CI, tags: seq<string>, authority: string): CI
    decreases |tags|
  {
    if tags == [] then ci else WithTag(TagAll(ci, tags[..|tags| - 1], authority), tags[|tags| - 1], authority)
  }

  lemma {:induction false} FoldTags(ci: CI, tags: seq<string>, authority: string)
    ensures FoldFrom(ci, MapAll(tags, TagAs(authority))) == TagAll(ci, tags, authority)
    decreases |tags|
  {
    if tags != [] {
      var front, last := tags[..|tags| - 1], tags[|tags| - 1];
      MapSnoc(tags, TagAs(authority));
      assert MapAll(tags, TagAs(authority)) == MapAll(front, TagAs(authority)) + [Tag(last, authority)];
      FoldSnoc(ci, MapAll(front, TagAs(authority)), Tag(last, authority));
      FoldTags(ci, front, authority);
    }
  }

  function UntagAll(ci: CI, tags: seq<string>, authority: string): CI
    decreases |tags|
  {
    if tags == [] then ci else WithoutTag(UntagAll(ci, tags[..|tags| - 1], authority), tags[|tags| - 1], authority)
  }

  lemma {:induction false} FoldUntags(ci: CI, tags: seq<string>, authority: string)
    ensures FoldFrom(ci, MapAll(tags, UntagAs(authority))) == UntagAll(ci, tags, authority)
    decreases |tags|
  {
    if tags != [] {
      var front, last := tags[..|tags| - 1], tags[|tags| - 1];
      MapSnoc(tags, UntagAs(authority));
      assert MapAll(tags, UntagAs(authority)) == MapAll(front, UntagAs(authority)) + [Untag(last, authority)];
      FoldSnoc(ci, MapAll(front, UntagAs(authority)), Untag(last, authority));
      FoldUntags(ci, front, authority);
    }
  }

  lemma FoldStatus(ci: CI, status: Option<string>)
    ensures FoldFrom(ci, StatusEvents(status)) == if status.Some? then ci.(status := status.value) else ci
  {
    if status.Some? { FoldOne(ci, SetStatus(status.value)); }
  }

  lemma FoldOne(ci: CI, e: Event)
    ensures FoldFrom(ci, [e]) == Step(ci, e)
  {
    FoldSnoc(ci, [], e);
    assert [] + [e] == [e];
  }

  lemma FoldMaybe(ci: CI, field_: string, value: string, now: string)
    requires field_ in {"name", "description", "node"}
    requires now == if field_ == "name" then ci.name else if field_ == "description" then ci.description else ci.node
    ensures FoldFrom(ci, MapAll(MaybeSet(field_, value, now), METADATA)) == WithMetadata(ci, field_, Or(value, now))
  {
    if value != "" && now != value {
      assert MapAll(MaybeSet(field_, value, now), METADATA) == [SetMetadata(field_, value)];
      FoldOne(ci, SetMetadata(field_, value));
    }
  }

  lemma MapConcat<T, U>(a: seq<T>, b: seq<T>, f: T -> U)
    ensures MapAll(a + b, f) == MapAll(a, f) + MapAll(b, f)
  {
  }

  lemma FoldMetadata(ci: CI, item: Item)
    ensures FoldFrom(ci, MapAll(MetadataChanges(ci, item), METADATA))
            == ci.(name := Or(item.name, ci.name), description := Or(item.description, ci.description),
                   node := Or(item.node, ci.node))
  {
    var a, b := MaybeSet("name", item.name, ci.name), MaybeSet("description", item.description, ci.description);
    var c := MaybeSet("node", item.node, ci.node);
    MapConcat(a, b, METADATA);
    MapConcat(a + b, c, METADATA);
    FoldConcat(ci, MapAll(a, METADATA), MapAll(b, METADATA));
    FoldConcat(ci, MapAll(a, METADATA) + MapAll(b, METADATA), MapAll(c, METADATA));
    FoldMaybe(ci, "name", item.name, ci.name);
    var x := WithMetadata(ci, "name", Or(item.name, ci.name));
    FoldMaybe(x, "description", item.description, ci.description);
    FoldMaybe(WithMetadata(x, "description", Or(item.description, ci.description)), "node", item.node, ci.node);
  }

  // ----- Attributes -----

  lemma EmptyFilter<T>(s: seq<T>, keep: T -> bool)
    ensures Filter(s, keep) == [] <==> forall x :: x in s ==> !keep(x)
  {
    if Filter(s, keep) == [] {
      forall x | x in s ensures !keep(x) { FilterMember(s, keep, x); }
    } else {
      FilterMember(s, keep, Filter(s, keep)[0]);
    }
  }

  lemma {:induction false} UpdateGets(d: Dict<Value>, e: Dict<Value>, k: string)
    requires forall p :: p in e ==> p.0 != k
    ensures Get(Update(d, e), k) == Get(d, k)
    decreases |e|
  {
    if e != [] {
      assert e[0] in e;
      GetAfterPut(d, e[0].0, e[0].1, k);
      UpdateGets(Put(d, e[0].0, e[0].1), e[1..], k);
    }
  }

  lemma {:induction false} UpdateKeysDiffer(d: Dict<Value>, e: Dict<Value>)
    requires KeysDiffer(d)
    ensures KeysDiffer(Update(d, e))
    decreases |e|
  {
    if e != [] {
      PutKeysDiffer(d, e[0].0, e[0].1);
      UpdateKeysDiffer(Put(d, e[0].0, e[0].1), e[1..]);
    }
  }

  /** The evidence names no empty key, so an empty key can only be the item's own. */
  lemma DesiredIs(item: Item)
    requires KeysDiffer(item.attributes)
    ensures KeysDiffer(Desired(item)) && Get(Desired(item), "") == Get(item.attributes, "")
  {
    UpdateKeysDiffer(item.attributes, Evidence(item));
    forall p | p in Evidence(item) ensures p.0 != "" {
    }
    UpdateGets(item.attributes, Evidence(item), "");
  }

  lemma {:induction false} PutAllOther(d: Dict<Value>, e: Dict<Value>, k: string)
    requires k == "" || forall p :: p in e ==> p.0 != k
    ensures Read(PutAll(d, e), k) == Read(d, k)
    decreases |e|
  {
    if e != [] {
      var front, last := e[..|e| - 1], e[|e| - 1];
      assert last in e;
      PutAllOther(d, front, k);
      GetAfterPut(PutAll(d, front), last.0, last.1, k);
    }
  }

  lemma {:induction false} PutAllReads(d: Dict<Value>, e: Dict<Value>, p: (string, Value))
    requires KeysDiffer(e) && p in e && p.0 != ""
    ensures Read(PutAll(d, e), p.0) == p.1
    decreases |e|
  {
    var front, last := e[..|e| - 1], e[|e| - 1];
    assert e == front + [last];
    GetAfterPut(PutAll(d, front), last.0, last.1, p.0);
    if p != last {
      MemberIsGet(e, p);
      MemberIsGet(e, last);
      PutAllReads(d, front, p);
    }
  }

  lemma {:induction false} FilterKeysDiffer(d: Dict<Value>, keep: ((string, Value)) -> bool)
    requires KeysDiffer(d)
    ensures KeysDiffer(Filter(d, keep))
  {
    if d != [] {
      DifferTail(d);
      FilterKeysDiffer(d[1..], keep);
      var rest := Filter(d[1..], keep);
      if keep(d[0]) {
        forall i | 0 <= i < |rest| ensures rest[i].0 != d[0].0 {
          FilterMember(d[1..], keep, rest[i]);
        }
        assert Filter(d, keep) == [d[0]] + rest;
      } else {
        assert Filter(d, keep) == rest;
      }
    }
  }

  /** Once the changed attributes are set, only one with an empty key can still differ. */
  lemma AttributesSettle(ci: CI, after: CI, item: Item)
    requires KeysDiffer(item.attributes)
    requires after.attributes == PutAll(ci.attributes, Filter(Desired(item), Stale(ci)))
    ensures Filter(Desired(item), Stale(after)) == []
            <==> (Get(item.attributes, "").Some? ==> Read(ci.attributes, "") == Get(item.attributes, "").value)
  {
    var desired, changed := Desired(item), Filter(Desired(item), Stale(ci));
    DesiredIs(item);
    FilterKeysDiffer(desired, Stale(ci));
    forall p | p in desired
      ensures Stale(after)(p) <==> p.0 == "" && Stale(ci)(p)
    {
      FilterMember(desired, Stale(ci), p);
      MemberIsGet(desired, p);
      if p.0 == "" {
        PutAllOther(ci.attributes, changed, "");
      } else if p in changed {
        PutAllReads(ci.attributes, changed, p);
      } else {
        forall q | q in changed ensures q.0 != p.0 {
          FilterMember(desired, Stale(ci), q);
          MemberIsGet(desired, q);
        }
        PutAllOther(ci.attributes, changed, p.0);
      }
    }
    EmptyFilter(desired, Stale(after));
    GetIsMember(desired, "");
    assert Get(desired, "").Some? ==> ("", Get(desired, "").value) in desired;
  }

  // ----- Relationships -----

  lemma {:induction false} RelatesHave(rels: seq<Relationship>, pairs: seq<(string, Id)>, a: string, pair: (string, Id))
    requires HasRelationship(rels, pair, a) || (pair in pairs && pair.1 != "")
    ensures HasRelationship(RelateAll(rels, pairs, a), pair, a)
    decreases |pairs|
  {
    if pairs != [] {
      var front, last := pairs[..|pairs| - 1], pairs[|pairs| - 1];
      var before := RelateAll(rels, front, a);
      var new_ := Relationship(last.0, last.1, a);
      assert pairs == front + [last];
      if pair == last && last.1 != "" {
        assert new_ in RelateAll(rels, pairs, a) && Serves(new_, pair, a);
      } else {
        RelatesHave(rels, front, a, pair);
        var r :| r in before && Serves(r, pair, a);
        FilterMember(before, Others(last.0, last.1), r);
        assert r in RelateAll(rels, pairs, a);
      }
    }
  }

  lemma {:induction false} RelatesAdd(rels: seq<Relationship>, pairs: seq<(string, Id)>, a: string, r: Relationship)
    requires r in RelateAll(rels, pairs, a)
    ensures r in rels || Pair(r) in pairs
    decreases |pairs|
  {
    if pairs != [] {
      var front, last := pairs[..|pairs| - 1], pairs[|pairs| - 1];
      assert pairs == front + [last];
      FilterMember(RelateAll(rels, front, a), Others(last.0, last.1), r);
      if r in RelateAll(rels, front, a) { RelatesAdd(rels, front, a, r); }
    }
  }

  lemma {:induction false} UnrelatesDrop(rels: seq<Relationship>, pairs: seq<(string, Id)>, r: Relationship)
    ensures r in UnrelateAll(rels, pairs) <==> r in rels && Pair(r) !in pairs
    decreases |pairs|
  {
    if pairs != [] {
      var front, last := pairs[..|pairs| - 1], pairs[|pairs| - 1];
      assert pairs == front + [last];
      UnrelatesDrop(rels, front, r);
      FilterMember(UnrelateAll(rels, front), Others(last.0, last.1), r);
    }
  }

  lemma StalePair(ci: CI, item: Item, p: (string, Id))
    ensures p in StaleRelationships(ci, item) ==> p !in item.relationships
    ensures forall r :: r in ci.relationships && IsStale(item)(r) ==> Pair(r) in StaleRelationships(ci, item)
  {
    var stale := Filter(ci.relationships, IsStale(item));
    if p in StaleRelationships(ci, item) {
      var k :| 0 <= k < |stale| && MapAll(stale, PAIR)[k] == p;
      FilterMember(ci.relationships, IsStale(item), stale[k]);
    }
    forall r | r in ci.relationships && IsStale(item)(r) ensures Pair(r) in StaleRelationships(ci, item) {
      FilterMember(ci.relationships, IsStale(item), r);
      var k :| 0 <= k < |stale| && stale[k] == r;
      assert MapAll(stale, PAIR)[k] == Pair(r);
    }
  }

  lemma RelationshipsSettle(ci: CI, after: CI, item: Item)
    requires forall p :: p in item.relationships ==> p.1 != ""
    requires var related := RelateAll(ci.relationships, MissingRelationships(ci, item), item.authority);
             after.relationships == UnrelateAll(related, StaleRelationships(ci, item))
    ensures MissingRelationships(after, item) == [] && StaleRelationships(after, item) == []
  {
    var missing, stale := MissingRelationships(ci, item), StaleRelationships(ci, item);
    var absent := (p: (string, Id)) => !HasRelationship(ci.relationships, p, item.authority);
    var related := RelateAll(ci.relationships, missing, item.authority);
    forall p | p in item.relationships ensures HasRelationship(after.relationships, p, item.authority) {
      FilterMember(item.relationships, absent, p);
      RelatesHave(ci.relationships, missing, item.authority, p);
      var r :| r in related && Serves(r, p, item.authority);
      StalePair(ci, item, p);
      UnrelatesDrop(related, stale, r);
    }
    EmptyFilter(item.relationships, (p: (string, Id)) => !HasRelationship(after.relationships, p, item.authority));
    forall r | r in after.relationships ensures !IsStale(item)(r) {
      UnrelatesDrop(related, stale, r);
      RelatesAdd(ci.relationships, missing, item.authority, r);
      FilterMember(item.relationships, absent, Pair(r));
      StalePair(ci, item, Pair(r));
    }
    EmptyFilter(after.relationships, IsStale(item));
  }

  // ----- Tags -----

  lemma {:induction false} TagAllIs(ci: CI, tags: seq<string>, a: string, t: string)
    ensures var r := TagAll(ci, tags, a);
            && r == ci.(tags := r.tags, authorities := r.authorities)
            && (t in r.tags <==> t in ci.tags || (t in tags && t != ""))
            && Get(r.authorities, t) == if t in tags && t != "" && a != "" then Some(a) else Get(ci.authorities, t)
    decreases |tags|
  {
    if tags != [] {
      var front, last := tags[..|tags| - 1], tags[|tags| - 1];
      assert tags == front + [last];
      TagAllIs(ci, front, a, t);
      GetAfterPut(TagAll(ci, front, a).authorities, last, a, t);
    }
  }

  /** Removing under an authority removes just the tags that it set. */
  lemma {:induction false} UntagAllIs(ci: CI, tags: seq<string>, a: string, t: string)
    requires a != "" && forall u :: u in tags ==> u != ""
    ensures var r, gone := UntagAll(ci, tags, a), t in tags && Get(ci.authorities, t) == Some(a);
            && r == ci.(tags := r.tags, authorities := r.authorities)
            && (t in r.tags <==> t in ci.tags && !gone)
            && Get(r.authorities, t) == if gone then None else Get(ci.authorities, t)
    decreases |tags|
  {
    if tags != [] {
      var front, last := tags[..|tags| - 1], tags[|tags| - 1];
      var before := UntagAll(ci, front, a);
      assert tags == front + [last];
      assert forall u :: u in front ==> u in tags;
      UntagAllIs(ci, front, a, t);
      GetAfterDrop(before.authorities, last, t);
      FilterMember(before.tags, (u: string) => u != last, t);
    }
  }

  lemma SortTextsHolds(s: seq<string>, t: string)
    ensures t in SortTexts(s) <==> t in s
    ensures SortTexts(s) == [] <==> s == []
  {
    SortSorts(s, TEXT_KEY);
    assert t in SortTexts(s) <==> t in multiset(s);
    assert |multiset(SortTexts(s))| == |SortTexts(s)| && |multiset(s)| == |s|;
  }

  lemma MissingTagsHolds(ci: CI, item: Item, t: string)
    ensures t in MissingTags(ci, item) <==> t in item.tags && t !in ci.tags
    ensures MissingTags(ci, item) == [] <==> forall u :: u in item.tags ==> u in ci.tags
  {
    var absent := (u: string) => u !in ci.tags;
    SortTextsHolds(Filter(Dedupe(item.tags), absent), t);
    FilterMember(Dedupe(item.tags), absent, t);
    EmptyFilter(Dedupe(item.tags), absent);
    DedupeKeeps(item.tags);
  }

  /** Stale tags are those the item's authority set and the item no longer names. */
  lemma StaleTagsHolds(ci: CI, item: Item, t: string)
    requires AuthoritiesSound(ci)
    ensures t in StaleTags(ci, item) <==> Get(ci.authorities, t) == Some(item.authority) && t !in item.tags
    ensures t in StaleTags(ci, item) ==> t != "" && item.authority != ""
    ensures StaleTags(ci, item) == [] <==> forall u :: Get(ci.authorities, u) == Some(item.authority) ==> u in item.tags
  {
    var goes := (p: (string, string)) => p.1 == item.authority && p.0 !in item.tags;
    var stale := Filter(ci.authorities, goes);
    forall u ensures u in StaleTags(ci, item) <==> Get(ci.authorities, u) == Some(item.authority) && u !in item.tags {
      SortTextsHolds(MapAll(stale, FIRST), u);
      GetIsMember(ci.authorities, u);
      if Get(ci.authorities, u) == Some(item.authority) && u !in item.tags {
        FilterMember(ci.authorities, goes, (u, item.authority));
        var k :| 0 <= k < |stale| && stale[k] == (u, item.authority);
        assert MapAll(stale, FIRST)[k] == u;
      }
      if u in MapAll(stale, FIRST) {
        var k :| 0 <= k < |stale| && MapAll(stale, FIRST)[k] == u;
        FilterMember(ci.authorities, goes, stale[k]);
        MemberIsGet(ci.authorities, stale[k]);
      }
    }
    GetIsMember(ci.authorities, t);
    if StaleTags(ci, item) != [] { assert StaleTags(ci, item)[0] in StaleTags(ci, item); }
  }

  /** Tags after an update: only the empty tag can be missing for good. */
  lemma TagsSettle(ci: CI, before: CI, after: CI, item: Item)
    requires AuthoritiesSound(ci) && AuthoritiesSound(after)
    requires before.tags == ci.tags && before.authorities == ci.authorities
    requires var tagged := TagAll(before, MissingTags(ci, item), item.authority);
             after == UntagAll(tagged, StaleTags(ci, item), item.authority)
    ensures MissingTags(after, item) == [] <==> ("" in item.tags ==> "" in ci.tags)
    ensures StaleTags(after, item) == []
    ensures after == before.(tags := after.tags, authorities := after.authorities)
  {
    var a, missing, stale := item.authority, MissingTags(ci, item), StaleTags(ci, item);
    var tagged := TagAll(before, missing, a);
    TagAllIs(before, missing, a, "");
    if a == "" {
      forall t ensures Get(ci.authorities, t) != Some("") { GetIsMember(ci.authorities, t); }
      StaleTagsHolds(ci, item, "");
    } else {
      forall t | t in stale ensures t != "" { StaleTagsHolds(ci, item, t); }
      UntagAllIs(tagged, stale, a, "");
    }
    forall t ensures t in item.tags ==> (t in after.tags <==> t in ci.tags || t != "")
             ensures Get(after.authorities, t) == Some(a) ==> t in item.tags
    {
      MissingTagsHolds(ci, item, t);
      StaleTagsHolds(ci, item, t);
      TagAllIs(before, missing, a, t);
      if a != "" { UntagAllIs(tagged, stale, a, t); }
      GetIsMember(ci.authorities, t);
      GetIsMember(after.authorities, t);
    }
    MissingTagsHolds(after, item, "");
    StaleTagsHolds(after, item, "");
  }

  // ----- One item -----

  /** What validation leaves: a dictionary of attributes, and named targets. */
  ghost predicate ValidItem(item: Item) {
    KeysDiffer(item.attributes) && forall p :: p in item.relationships ==> p.1 != ""
  }

  /** Nothing the fold ignores is asked for: no new empty tag, no change under an empty key. */
  predicate Foldable(ci: CI, item: Item) {
    && (Get(item.attributes, "").Some? ==> Read(ci.attributes, "") == Get(item.attributes, "").value)
    && ("" in item.tags ==> "" in ci.tags)
  }

  /** The item after every event of an update. */
  function UpdatedCI(ci: CI, item: Item): CI {
    var c := ChangesOf(ci, item);
    var related := RelateAll(ci.relationships, c.missing, item.authority);
    UntagAll(TagAll(ci.(attributes := PutAll(ci.attributes, c.attributes),
                        status := if c.status.Some? then c.status.value else ci.status,
                        relationships := UnrelateAll(related, c.stale),
                        name := Or(item.name, ci.name), description := Or(item.description, ci.description),
                        node := Or(item.node, ci.node)),
                    c.added, item.authority),
             c.removed, item.authority)
  }

  lemma UpdateFolds(ci: CI, item: Item)
    ensures FoldFrom(ci, UpdateEvents(ChangesOf(ci, item), item)) == UpdatedCI(ci, item)
  {
    var c, a := ChangesOf(ci, item), item.authority;
    var e1, e2, e3 := MapAll(c.attributes, ATTRIBUTE), StatusEvents(c.status), MapAll(c.missing, RelateAs(a));
    var e4, e5, e6 := MapAll(c.stale, UNRELATE), MapAll(c.metadata, METADATA), MapAll(c.added, TagAs(a));
    var e7 := MapAll(c.removed, UntagAs(a));
    FoldConcat(ci, e1, e2);
    FoldConcat(ci, e1 + e2, e3);
    FoldConcat(ci, e1 + e2 + e3, e4);
    FoldConcat(ci, e1 + e2 + e3 + e4, e5);
    FoldConcat(ci, e1 + e2 + e3 + e4 + e5, e6);
    FoldConcat(ci, e1 + e2 + e3 + e4 + e5 + e6, e7);
    FoldAttributes(ci, c.attributes);
    var c1 := FoldFrom(ci, e1);
    FoldStatus(c1, c.status);
    var c2 := FoldFrom(c1, e2);
    FoldRelates(c2, c.missing, a);
    var c3 := FoldFrom(c2, e3);
    FoldUnrelates(c3, c.stale);
    var c4 := FoldFrom(c3, e4);
    assert MetadataChanges(c4, item) == c.metadata;
    FoldMetadata(c4, item);
    var c5 := FoldFrom(c4, e5);
    FoldTags(c5, c.added, a);
    FoldUntags(FoldFrom(c5, e6), c.removed, a);
  }

  /** Updates leave alone what the fold ignores, so they cannot make it right either. */
  lemma UpdateKeepsFoldable(ci: CI, item: Item)
    requires AuthoritiesSound(ci)
    ensures Foldable(FoldFrom(ci, UpdateEvents(ChangesOf(ci, item), item)), item) <==> Foldable(ci, item)
  {
    var c, a, after := ChangesOf(ci, item), item.authority, UpdatedCI(ci, item);
    UpdateFolds(ci, item);
    PutAllOther(ci.attributes, c.attributes, "");
    var before := ci.(attributes := PutAll(ci.attributes, c.attributes),
                      status := if c.status.Some? then c.status.value else ci.status,
                      relationships := UnrelateAll(RelateAll(ci.relationships, c.missing, a), c.stale),
                      name := Or(item.name, ci.name), description := Or(item.description, ci.description),
                      node := Or(item.node, ci.node));
    EmptyTagStays(ci, before, item);
  }

  lemma EmptyTagStays(ci: CI, before: CI, item: Item)
    requires AuthoritiesSound(ci) && before.tags == ci.tags && before.authorities == ci.authorities
    ensures var tagged := TagAll(before, MissingTags(ci, item), item.authority);
            var after := UntagAll(tagged, StaleTags(ci, item), item.authority);
            && ("" in after.tags <==> "" in ci.tags)
            && after.attributes == before.attributes
  {
    var a, missing, stale := item.authority, MissingTags(ci, item), StaleTags(ci, item);
    TagAllIs(before, missing, a, "");
    if a == "" {
      forall t ensures Get(ci.authorities, t) != Some("") { GetIsMember(ci.authorities, t); }
      StaleTagsHolds(ci, item, "");
    } else {
      forall t | t in stale ensures t != "" { StaleTagsHolds(ci, item, t); }
      UntagAllIs(TagAll(before, missing, a), stale, a, "");
    }
  }

  /** After an update nothing differs, exactly when nothing the fold ignores was asked for. */
  lemma UpdateSettlesExactly(ci: CI, item: Item)
    requires AuthoritiesSound(ci) && ValidItem(item)
    ensures ChangesOf(FoldFrom(ci, UpdateEvents(ChangesOf(ci, item), item)), item) == NO_CHANGES <==> Foldable(ci, item)
    ensures ci.status == RETIRED ==> FoldFrom(ci, UpdateEvents(ChangesOf(ci, item), item)).status == RETIRED
  {
    var c, after := ChangesOf(ci, item), UpdatedCI(ci, item);
    UpdateFolds(ci, item);
    FoldKeepsSound(ci, UpdateEvents(c, item));
    var before := ci.(attributes := PutAll(ci.attributes, c.attributes),
                      status := if c.status.Some? then c.status.value else ci.status,
                      relationships := UnrelateAll(RelateAll(ci.relationships, c.missing, item.authority), c.stale),
                      name := Or(item.name, ci.name), description := Or(item.description, ci.description),
                      node := Or(item.node, ci.node));
    TagsSettle(ci, before, after, item);
    AttributesSettle(ci, after, item);
    RelationshipsSettle(ci, after, item);
    assert MetadataChanges(after, item) == [];
    assert StatusChange(after, item) == None;
  }

  /** A new record has everything its item asked for. */
  lemma CreationSettles(item: Item)
    requires ValidItem(item)
    ensures ChangesOf(FoldRecord(NewRecord(item)), item) == NO_CHANGES
  {
    var r, a := NewRecord(item), item.authority;
    var start := FromCore(r.core);
    var e1 := if a != "" then MapAll(item.tags, TagAs(a)) else [];
    var derived := ObservedStatus(item);
    var status := if derived == Some(OPERATIONAL) then None else derived;
    var e2, e3 := StatusEvents(status), MapAll(item.relationships, RelateAs(a));
    FoldConcat(start, e1, e2);
    FoldConcat(start, e1 + e2, e3);
    FoldTags(start, item.tags, a);
    var c1 := FoldFrom(start, e1);
    FoldStatus(c1, status);
    var c2 := FoldFrom(c1, e2);
    FoldRelates(c2, item.relationships, a);
    FoldKeepsSound(start, r.events);
    var after := FoldRecord(r);
    NewTagsSettle(start, c1, item);
    assert after == c1.(status := c2.status, relationships := RelateAll([], item.relationships, a));
    NewRelationshipsSettle(after, item);
    NewAttributesSettle(after, item);
    NewTagsSettle(start, after, item);
    assert MetadataChanges(after, item) == [];
    assert StatusChange(after, item) == None;
  }

  lemma NewAttributesSettle(after: CI, item: Item)
    requires KeysDiffer(item.attributes) && after.attributes == Desired(item)
    ensures Filter(Desired(item), Stale(after)) == []
  {
    DesiredIs(item);
    forall p | p in Desired(item) ensures !Stale(after)(p) { MemberIsGet(Desired(item), p); }
    EmptyFilter(Desired(item), Stale(after));
  }

  /** A new record has whatever its item asked for under the empty key and the empty tag. */
  lemma CreationIsFoldable(item: Item)
    requires ValidItem(item)
    ensures Foldable(FoldRecord(NewRecord(item)), item)
  {
    var after := FoldRecord(NewRecord(item));
    CreationSettles(item);
    DesiredIs(item);
    EmptyFilter(Desired(item), Stale(after));
    GetIsMember(Desired(item), "");
    MissingTagsHolds(after, item, "");
    assert ChangesOf(after, item).attributes == [] && ChangesOf(after, item).added == [];
  }

  lemma NewTagsSettle(start: CI, after: CI, item: Item)
    requires start.tags == item.tags && start.authorities == [] && AuthoritiesSound(after)
    requires var e := if item.authority != "" then MapAll(item.tags, TagAs(item.authority)) else [];
             after.tags == FoldFrom(start, e).tags && after.authorities == FoldFrom(start, e).authorities
    ensures MissingTags(after, item) == [] && StaleTags(after, item) == []
    ensures var e := if item.authority != "" then MapAll(item.tags, TagAs(item.authority)) else [];
            FoldFrom(start, e) == start.(tags := after.tags, authorities := after.authorities)
  {
    FoldTags(start, item.tags, item.authority);
    TagAllIs(start, item.tags, item.authority, "");
    forall t ensures t in item.tags ==> t in after.tags
             ensures Get(after.authorities, t) == Some(item.authority) ==> t in item.tags
    {
      TagAllIs(start, item.tags, item.authority, t);
    }
    MissingTagsHolds(after, item, "");
    StaleTagsHolds(after, item, "");
  }

  lemma NewRelationshipsSettle(after: CI, item: Item)
    requires forall p :: p in item.relationships ==> p.1 != ""
    requires after.relationships == RelateAll([], item.relationships, item.authority)
    ensures MissingRelationships(after, item) == [] && StaleRelationships(after, item) == []
  {
    forall p | p in item.relationships ensures HasRelationship(after.relationships, p, item.authority) {
      RelatesHave([], item.relationships, item.authority, p);
    }
    EmptyFilter(item.relationships, (p: (string, Id)) => !HasRelationship(after.relationships, p, item.authority));
    forall r | r in after.relationships ensures !IsStale(item)(r) {
      RelatesAdd([], item.relationships, item.authority, r);
    }
    EmptyFilter(after.relationships, IsStale(item));
  }

  // ----- Validation -----

  datatype Failure =
    | UnsupportedType(id: Id)
    | EmptyName(id: Id)
    | UnsupportedRelationship(id: Id, relType: string)
    | SelfEdge(id: Id)
    | MissingTarget(id: Id, target: Id)

  const CI_TYPES := {"service", "host", "agent", "credential", "port", "datastore", "network", "device"}
  const RELATIONSHIPS := {"depends_on", "runs_on", "hosts", "connects_to", "alias_of"}

  function RelationshipFailures(item: Item, rels: seq<(string, Id)>, known: set<Id>): seq<Failure>
    decreases |rels|
  {
    if rels == [] then []
    else
      var p := rels[|rels| - 1];
      RelationshipFailures(item, rels[..|rels| - 1], known)
      + (if p.0 !in RELATIONSHIPS then [UnsupportedRelationship(item.id, p.0)]
         else if p.1 == item.id then [SelfEdge(item.id)]
         else if p.1 !in known then [MissingTarget(item.id, p.1)]
         else [])
  }

  function ItemFailures(item: Item, known: set<Id>): seq<Failure> {
    (if item.ciType !in CI_TYPES then [UnsupportedType(item.id)] else [])
    + (if Blank(item.named) then [EmptyName(item.id)] else [])
    + RelationshipFailures(item, item.relationships, known)
  }

  function FailuresOver(items: seq<Item>, known: set<Id>): seq<Failure>
    decreases |items|
  {
    if items == [] then []
    else FailuresOver(items[..|items| - 1], known) + ItemFailures(items[|items| - 1], known)
  }

  type Store = map<Id, Record>

  function IdsOf(items: seq<Item>): set<Id> {
    set i | 0 <= i < |items| :: items[i].id
  }

  function FailuresOf(store: Store, items: seq<Item>): seq<Failure> {
    FailuresOver(items, store.Keys + IdsOf(items))
  }

  lemma {:induction false} NoRelationshipFailures(item: Item, rels: seq<(string, Id)>, known: set<Id>)
    ensures RelationshipFailures(item, rels, known) == []
            <==> forall p :: p in rels ==> p.0 in RELATIONSHIPS && p.1 != item.id && p.1 in known
    decreases |rels|
  {
    if rels != [] {
      var front, last := rels[..|rels| - 1], rels[|rels| - 1];
      assert rels == front + [last];
      NoRelationshipFailures(item, front, known);
    }
  }

  /** A valid batch is valid for every store that knows as much. */
  lemma {:induction false} NoFailures(items: seq<Item>, known: set<Id>, more: set<Id>)
    requires FailuresOver(items, known) == [] && known <= more
    ensures FailuresOver(items, more) == []
    ensures forall item, p :: item in items && p in item.relationships ==> p.1 in known
    decreases |items|
  {
    if items != [] {
      var front, last := items[..|items| - 1], items[|items| - 1];
      assert items == front + [last];
      NoFailures(front, known, more);
      NoRelationshipFailures(last, last.relationships, known);
      NoRelationshipFailures(last, last.relationships, more);
    }
  }

  // ----- A batch -----

  /** `by_id`: the last item of each id, in the order ids first came. */
  function ById(items: seq<Item>): Dict<Item> {
    if items == [] then [] else Put(ById(items[..|items| - 1]), items[|items| - 1].id, items[|items| - 1])
  }

  lemma {:induction false} ByIdHolds(items: seq<Item>)
    ensures KeysDiffer(ById(items))
    ensures forall p :: p in ById(items) ==> p.1 in items && p.1.id == p.0
  {
    if items != [] {
      var front, last := items[..|items| - 1], items[|items| - 1];
      assert items == front + [last];
      ByIdHolds(front);
      PutKeysDiffer(ById(front), last.id, last);
      forall p | p in ById(items) ensures p.1 in items && p.1.id == p.0 {
        PutMember(ById(front), last.id, last, p);
      }
    }
  }

  function At(store: Store, id: Id): Option<Record> {
    if id in store then Some(store[id]) else None
  }

  function ApplyOver(store: Store, d: Dict<Item>): Store
    decreases |d|
  {
    if d == [] then store
    else
      var before, p := ApplyOver(store, d[..|d| - 1]), d[|d| - 1];
      before[p.0 := Applied(At(before, p.0), p.1)]
  }

  lemma {:induction false} ApplyOverAt(store: Store, d: Dict<Item>, id: Id)
    requires KeysDiffer(d)
    ensures At(ApplyOver(store, d), id)
            == if Get(d, id).Some? then Some(Applied(At(store, id), Get(d, id).value)) else At(store, id)
    ensures id in ApplyOver(store, d) <==> id in store || Get(d, id).Some?
    decreases |d|
  {
    if d != [] {
      var front, last := d[..|d| - 1], d[|d| - 1];
      assert d == front + [last];
      ApplyOverAt(store, front, id);
      GetSnoc(front, last, id);
    }
  }

  lemma {:induction false} GetSnoc<V>(front: Dict<V>, last: (string, V), k: string)
    requires KeysDiffer(front + [last])
    ensures Get(front + [last], k) == if k == last.0 then Some(last.1) else Get(front, k)
    ensures Get(front, last.0) == None
  {
    forall p | p in front ensures p.0 != last.0 {
      var i :| 0 <= i < |front| && front[i] == p;
      assert (front + [last])[i] == p && (front + [last])[|front|] == last;
    }
    GetIsMember(front, last.0);
    if front != [] {
      assert (front + [last])[1..] == front[1..] + [last];
      DifferTail(front + [last]);
      GetSnoc(front[1..], last, k);
    }
  }

  // ----- The report -----

  datatype RelationshipChange = RelationshipChange(id: Id, adds: bool, relType: string, target: Id)

  datatype Report = Report(
    applied: bool, created: seq<Id>, updated: seq<(Id, Changes)>, unaltered: seq<Id>,
    relationships: seq<RelationshipChange>, orphans: set<Id>, failures: seq<Failure>)

  function Reports(id: Id, adds: bool): ((string, Id)) -> RelationshipChange {
    (p: (string, Id)) => RelationshipChange(id, adds, p.0, p.1)
  }

  function ReportItem(r: Report, current: Option<CI>, item: Item, id: Id): Report {
    if current.None? then
      r.(created := r.created + [id], relationships := r.relationships + MapAll(item.relationships, Reports(id, true)))
    else
      var c := ChangesOf(current.value, item);
      if c == NO_CHANGES then r.(unaltered := r.unaltered + [id])
      else r.(updated := r.updated + [(id, c)],
              relationships := r.relationships + MapAll(c.missing, Reports(id, true))
                               + MapAll(c.stale, Reports(id, false)))
  }

  function Current(store: Store, id: Id): Option<CI> {
    if id in store then Some(FoldRecord(store[id])) else None
  }

  const EMPTY := Report(false, [], [], [], [], {}, [])

  function ReportOver(store: Store, d: Dict<Item>): Report
    decreases |d|
  {
    if d == [] then EMPTY
    else ReportItem(ReportOver(store, d[..|d| - 1]), Current(store, d[|d| - 1].0), d[|d| - 1].1, d[|d| - 1].0)
  }

  const DISCOVERED := "discovered"

  function Orphans(store: Store, d: Dict<Item>): set<Id> {
    set id | id in store && Get(d, id).None? && DISCOVERED in FoldRecord(store[id]).tags
             && FoldRecord(store[id]).status != RETIRED
  }

  /** What a run reports, apart from whether it was applied. */
  function ReportOf(store: Store, items: seq<Item>, complete: bool): Report {
    var failures := FailuresOf(store, items);
    if failures != [] then EMPTY.(failures := failures)
    else ReportOver(store, ById(items)).(orphans := if complete then Orphans(store, ById(items)) else {})
  }

  /** What an applied run leaves. */
  function Reconciled(store: Store, items: seq<Item>): Store {
    if FailuresOf(store, items) != [] then store else ApplyOver(store, ById(items))
  }

  // ----- The second run -----

  /** Attributes are dictionaries and no id is empty. */
  ghost predicate WellFormed(store: Store, items: seq<Item>) {
    && "" !in store.Keys + IdsOf(items)
    && (forall item :: item in items ==> KeysDiffer(item.attributes))
  }

  /** No item asks an existing record for what the fold ignores. */
  predicate AllFoldable(store: Store, items: seq<Item>) {
    forall p :: p in ById(items) && p.0 in store ==> Foldable(FoldRecord(store[p.0]), p.1)
  }

  lemma ValidatedItems(store: Store, items: seq<Item>)
    requires WellFormed(store, items) && FailuresOf(store, items) == []
    ensures forall p :: p in ById(items) ==> ValidItem(p.1)
  {
    ByIdHolds(items);
    NoFailures(items, store.Keys + IdsOf(items), store.Keys + IdsOf(items));
    forall p | p in ById(items) ensures ValidItem(p.1) {
      assert p.1 in items;
    }
  }

  lemma FoldIsSound(r: Record)
    ensures AuthoritiesSound(FoldRecord(r))
  {
    FoldKeepsSound(FromCore(r.core), r.events);
  }

  /** Applying an item and looking again finds nothing to do, unless the fold ignored something. */
  lemma ItemSettlesExactly(r: Option<Record>, item: Item)
    requires ValidItem(item)
    ensures ChangesOf(FoldRecord(Applied(r, item)), item) == NO_CHANGES
            <==> (r.Some? ==> Foldable(FoldRecord(r.value), item))
    ensures r.Some? && FoldRecord(r.value).status == RETIRED ==> FoldRecord(Applied(r, item)).status == RETIRED
  {
    if r.None? {
      CreationSettles(item);
    } else {
      var ci := FoldRecord(r.value);
      FoldIsSound(r.value);
      FoldConcat(FromCore(r.value.core), r.value.events, UpdateEvents(ChangesOf(ci, item), item));
      UpdateSettlesExactly(ci, item);
    }
  }

  lemma {:induction false} QuietReport(store: Store, d: Dict<Item>)
    requires forall p :: p in d ==> Current(store, p.0).Some? && ChangesOf(Current(store, p.0).value, p.1) == NO_CHANGES
    ensures ReportOver(store, d) == EMPTY.(unaltered := MapAll(d, (p: (string, Item)) => p.0))
    decreases |d|
  {
    if d != [] {
      var front, last := d[..|d| - 1], d[|d| - 1];
      assert last in d && forall p :: p in front ==> p in d;
      QuietReport(store, front);
      MapSnoc(d, (p: (string, Item)) => p.0);
      QuietItem(ReportOver(store, front), Current(store, last.0), last.1, last.0);
    }
  }

  lemma QuietItem(report: Report, current: Option<CI>, item: Item, id: Id)
    requires current.Some? && ChangesOf(current.value, item) == NO_CHANGES
    ensures ReportItem(report, current, item, id) == report.(unaltered := report.unaltered + [id])
  {
  }

  predicate Differs(store: Store, p: (string, Item)) {
    Current(store, p.0).Some? && ChangesOf(Current(store, p.0).value, p.1) != NO_CHANGES
  }

  function DiffersIn(store: Store): ((string, Item)) -> bool {
    (p: (string, Item)) => Differs(store, p)
  }

  /** As many items are reported updated as differ from their records. */
  lemma {:induction false} UpdatedAreThoseThatDiffer(store: Store, d: Dict<Item>)
    ensures |ReportOver(store, d).updated| == |Filter(d, DiffersIn(store))|
    decreases |d|
  {
    if d != [] {
      var front, last := d[..|d| - 1], d[|d| - 1];
      assert d == front + [last];
      UpdatedAreThoseThatDiffer(store, front);
      UpdatedOver(store, d);
      FilterSnoc(front, last, DiffersIn(store));
    }
  }

  lemma LoudReport(store: Store, d: Dict<Item>, p: (string, Item))
    requires p in d && Differs(store, p)
    ensures ReportOver(store, d).updated != []
  {
    UpdatedAreThoseThatDiffer(store, d);
    FilterMember(d, DiffersIn(store), p);
  }

  lemma UpdatedOver(store: Store, d: Dict<Item>)
    requires d != []
    ensures |ReportOver(store, d).updated|
            == |ReportOver(store, d[..|d| - 1]).updated| + if Differs(store, d[|d| - 1]) then 1 else 0
  {
    var last := d[|d| - 1];
    UpdatedGrows(ReportOver(store, d[..|d| - 1]), Current(store, last.0), last.1, last.0);
  }

  lemma UpdatedGrows(r: Report, current: Option<CI>, item: Item, id: Id)
    ensures |ReportItem(r, current, item, id).updated|
            == |r.updated| + if current.Some? && ChangesOf(current.value, item) != NO_CHANGES then 1 else 0
  {
  }

  lemma QuietApply(r: Record, item: Item)
    requires ChangesOf(FoldRecord(r), item) == NO_CHANGES
    ensures Applied(Some(r), item) == r
  {
    assert UpdateEvents(NO_CHANGES, item) == [];
    assert r.events + [] == r.events;
  }

  /** A difference is always some event. */
  lemma ChangesAreEvents(c: Changes, item: Item)
    requires c != NO_CHANGES
    ensures UpdateEvents(c, item) != []
  {
  }

  lemma LoudApply(r: Record, item: Item)
    requires ChangesOf(FoldRecord(r), item) != NO_CHANGES
    ensures Applied(Some(r), item) != r
  {
    ChangesAreEvents(ChangesOf(FoldRecord(r), item), item);
    assert |Applied(Some(r), item).events| > |r.events|;
  }

  lemma SecondLook(store: Store, items: seq<Item>, p: (string, Item))
    requires WellFormed(store, items) && FailuresOf(store, items) == [] && p in ById(items)
    ensures var after := Reconciled(store, items);
            && p.0 in after && after[p.0] == Applied(At(store, p.0), p.1)
            && (ChangesOf(FoldRecord(after[p.0]), p.1) == NO_CHANGES
                <==> (p.0 in store ==> Foldable(FoldRecord(store[p.0]), p.1)))
  {
    ByIdHolds(items);
    ValidatedItems(store, items);
    MemberIsItem(ById(items), p);
    ApplyOverAt(store, ById(items), p.0);
    ItemSettlesExactly(At(store, p.0), p.1);
  }

  lemma {:induction false} MemberIsItem(d: Dict<Item>, p: (string, Item))
    requires KeysDiffer(d) && p in d
    ensures Get(d, p.0) == Some(p.1)
  {
    assert d == [d[0]] + d[1..];
    if p != d[0] {
      DifferTail(d);
      MemberIsItem(d[1..], p);
    }
  }

  /** A valid batch stays valid once it has been applied. */
  lemma StaysValid(store: Store, items: seq<Item>)
    requires FailuresOf(store, items) == []
    ensures FailuresOf(Reconciled(store, items), items) == []
  {
    var after := Reconciled(store, items);
    ByIdHolds(items);
    forall id | id in store ensures id in after { ApplyOverAt(store, ById(items), id); }
    NoFailures(items, store.Keys + IdsOf(items), after.Keys + IdsOf(items));
  }

  /**
    Reconciling a valid batch a second time reports every item unchanged and appends
    nothing, exactly when no item asked an existing record for what the fold ignores.
  */
  lemma SecondRunIsQuietExactly(store: Store, items: seq<Item>, complete: bool)
    requires WellFormed(store, items) && FailuresOf(store, items) == []
    ensures var after := Reconciled(store, items);
            var again := ReportOf(after, items, complete);
            && again.failures == [] && again.created == []
            && (again.updated == [] <==> AllFoldable(store, items))
            && (Reconciled(after, items) == after <==> AllFoldable(store, items))
            && (AllFoldable(store, items) ==>
                  again.unaltered == MapAll(ById(items), (p: (string, Item)) => p.0) && again.relationships == [])
  {
    var after, d := Reconciled(store, items), ById(items);
    StaysValid(store, items);
    ByIdHolds(items);
    forall p | p in d ensures p.0 in after { SecondLook(store, items, p); }
    NothingCreated(after, d);
    if AllFoldable(store, items) {
      forall p | p in d ensures ChangesOf(FoldRecord(after[p.0]), p.1) == NO_CHANGES { SecondLook(store, items, p); }
      QuietReport(after, d);
      QuietStore(after, d);
    } else {
      var p :| p in d && p.0 in store && !Foldable(FoldRecord(store[p.0]), p.1);
      SecondLook(store, items, p);
      LoudReport(after, d, p);
      LoudStore(after, d, p);
    }
  }

  lemma LoudStore(store: Store, d: Dict<Item>, p: (string, Item))
    requires KeysDiffer(d) && p in d && Differs(store, p)
    ensures ApplyOver(store, d) != store
  {
    MemberIsItem(d, p);
    ApplyOverAt(store, d, p.0);
    LoudApply(store[p.0], p.1);
  }

  lemma {:induction false} NothingCreated(store: Store, d: Dict<Item>)
    requires forall p :: p in d ==> p.0 in store
    ensures ReportOver(store, d).created == [] && ReportOver(store, d).failures == []
    decreases |d|
  {
    if d != [] {
      assert d == d[..|d| - 1] + [d[|d| - 1]];
      NothingCreated(store, d[..|d| - 1]);
    }
  }

  lemma {:induction false} QuietStore(store: Store, d: Dict<Item>)
    requires forall p :: p in d ==> p.0 in store && ChangesOf(FoldRecord(store[p.0]), p.1) == NO_CHANGES
    ensures ApplyOver(store, d) == store
    decreases |d|
  {
    if d != [] {
      var front, last := d[..|d| - 1], d[|d| - 1];
      assert d == front + [last];
      QuietStore(store, front);
      QuietApply(store[last.0], last.1);
    }
  }

  /** No run brings a retired item back or touches a record the batch does not name. */
  lemma RetiredStaysRetired(store: Store, items: seq<Item>, id: Id)
    requires WellFormed(store, items) && id in store
    ensures var after := Reconciled(store, items);
            && id in after && store[id].events <= after[id].events && after[id].core == store[id].core
            && (FoldRecord(store[id]).status == RETIRED ==> FoldRecord(after[id]).status == RETIRED)
            && (Get(ById(items), id).None? ==> after[id] == store[id])
  {
    if FailuresOf(store, items) == [] {
      ByIdHolds(items);
      ValidatedItems(store, items);
      ApplyOverAt(store, ById(items), id);
      GetIsMember(ById(items), id);
      if Get(ById(items), id).Some? { ItemSettlesExactly(At(store, id), Get(ById(items), id).value); }
    }
  }

  // ----- Every later run -----

  function Iterate<T>(f: T -> T, x: T, n: nat): T {
    if n == 0 then x else f(Iterate(f, x, n - 1))
  }

  lemma {:induction false} IterateKeeps<T(!new)>(f: T -> T, p: T -> bool, x: T, n: nat)
    requires p(x) && forall y :: p(y) ==> p(f(y))
    ensures p(Iterate(f, x, n))
  {
    if n > 0 { IterateKeeps(f, p, x, n - 1); }
  }

  function RunOf(items: seq<Item>): Store -> Store {
    (store: Store) => Reconciled(store, items)
  }

  /** The store after `n` applied runs of one batch. */
  function Rerun(store: Store, items: seq<Item>, n: nat): Store {
    Iterate(RunOf(items), store, n)
  }

  lemma FoldableStays(store: Store, items: seq<Item>)
    requires WellFormed(store, items) && FailuresOf(store, items) == []
    ensures WellFormed(Reconciled(store, items), items)
    ensures AllFoldable(Reconciled(store, items), items) <==> AllFoldable(store, items)
  {
    var after := Reconciled(store, items);
    ByIdHolds(items);
    ValidatedItems(store, items);
    forall p | p in ById(items)
      ensures p.0 in after
      ensures Foldable(FoldRecord(after[p.0]), p.1) <==> (p.0 in store ==> Foldable(FoldRecord(store[p.0]), p.1))
    {
      SecondLook(store, items, p);
      ItemKeepsFoldable(At(store, p.0), p.1);
    }
    NoNewEmptyId(store, items);
  }

  lemma NoNewEmptyId(store: Store, items: seq<Item>)
    requires WellFormed(store, items)
    ensures WellFormed(Reconciled(store, items), items)
  {
    ByIdHolds(items);
    ApplyOverAt(store, ById(items), "");
    GetIsMember(ById(items), "");
  }

  lemma ItemKeepsFoldable(r: Option<Record>, item: Item)
    requires ValidItem(item)
    ensures Foldable(FoldRecord(Applied(r, item)), item) <==> (r.Some? ==> Foldable(FoldRecord(r.value), item))
  {
    if r.None? {
      CreationIsFoldable(item);
    } else {
      var ci := FoldRecord(r.value);
      FoldIsSound(r.value);
      FoldConcat(FromCore(r.value.core), r.value.events, UpdateEvents(ChangesOf(ci, item), item));
      UpdateKeepsFoldable(ci, item);
    }
  }

  /** A batch valid for the store, foldable or not as `foldable` says. */
  ghost predicate Steady(store: Store, items: seq<Item>, foldable: bool) {
    WellFormed(store, items) && FailuresOf(store, items) == [] && AllFoldable(store, items) == foldable
  }

  lemma SteadyNext(store: Store, items: seq<Item>, foldable: bool)
    requires Steady(store, items, foldable)
    ensures Steady(Reconciled(store, items), items, foldable)
  {
    StaysValid(store, items);
    FoldableStays(store, items);
  }

  lemma RerunsStay(store: Store, items: seq<Item>, foldable: bool, n: nat)
    requires Steady(store, items, foldable)
    ensures Steady(Rerun(store, items, n), items, foldable)
  {
    ghost var steady := (s: Store) => Steady(s, items, foldable);
    forall s: Store | steady(s) ensures steady(RunOf(items)(s)) {
      SteadyNext(s, items, foldable);
    }
    IterateKeeps(RunOf(items), steady, store, n);
  }

  lemma NextRunIsQuietExactly(store: Store, items: seq<Item>, complete: bool)
    requires WellFormed(store, items) && FailuresOf(store, items) == []
    ensures ReportOf(Reconciled(store, items), items, complete).updated == [] <==> AllFoldable(store, items)
    ensures Reconciled(Reconciled(store, items), items) == Reconciled(store, items) <==> AllFoldable(store, items)
  {
    SecondRunIsQuietExactly(store, items, complete);
  }

  /**
    After the first run every further one is quiet, or none is: what the fold ignores is
    reported and appended again for ever. The run looked at is the one after `n + 1`.
  */
  lemma LaterRunsAreQuietExactly(store: Store, items: seq<Item>, n: nat, complete: bool)
    requires WellFormed(store, items) && FailuresOf(store, items) == []
    ensures var s := Reconciled(Rerun(store, items, n), items);
            && (ReportOf(s, items, complete).updated == [] <==> AllFoldable(store, items))
            && (Reconciled(s, items) == s <==> AllFoldable(store, items))
  {
    RerunsStay(store, items, AllFoldable(store, items), n);
    NextRunIsQuietExactly(Rerun(store, items, n), items, complete);
  }

  /** An empty tag on an existing record is asked for, and appended, on every run. */
  lemma EmptyTagNeverSettles(store: Store, item: Item, n: nat, complete: bool)
    requires store == map["ci-service-a" := Record(Core("service", "a", "", "", "", [], []), [])]
    requires item == Item("ci-service-a", "service", "a", "a", false, "", "", [], [""], [], [], "", "", "", "", 1)
    ensures FailuresOf(store, [item]) == []
    ensures var s := Reconciled(Rerun(store, [item], n), [item]);
            ReportOf(s, [item], complete).updated != [] && Reconciled(s, [item]) != s
  {
    assert FailuresOver([item][..0], store.Keys + IdsOf([item])) == [];
    assert 'a' in item.named && !Blank(item.named);
    assert [item][0] == item && IdsOf([item]) == {"ci-service-a"};
    assert ById([item][..0]) == [] && ById([item]) == [("ci-service-a", item)];
    assert ("ci-service-a", item) in ById([item]);
    LaterRunsAreQuietExactly(store, [item], n, complete);
  }

  // ----- The manager that a run changes -----

  class Manager {
    var store: Store

    constructor (initial: Store)
      ensures store == initial
    {
      store := initial;
    }

    /** `_append`: one event at the end of a record. */
    method Append(id: Id, e: Event)
      requires id in store
      modifies this
      ensures store == old(store)[id := Record(old(store)[id].core, old(store)[id].events + [e])]
    {
      store := store[id := store[id].(events := store[id].events + [e])];
    }

    method AppendAll(id: Id, events: seq<Event>)
      requires id in store
      modifies this
      ensures store == old(store)[id := Record(old(store)[id].core, old(store)[id].events + events)]
    {
      ghost var was := store[id].events;
      assert was + events[..0] == was;
      for k := 0 to |events|
        invariant store == old(store)[id := Record(old(store)[id].core, was + events[..k])]
      {
        assert was + events[..k] + [events[k]] == was + events[..k + 1];
        Append(id, events[k]);
      }
      assert events[..|events|] == events;
    }

    /** `create_ci`: write-once, idempotent by id. */
    method CreateCi(id: Id, core: Core)
      modifies this
      ensures store == if id in old(store) then old(store) else old(store)[id := Record(core, [])]
    {
      if id !in store { store := store[id := Record(core, [])]; }
    }

    method ListCis() returns (existing: map<Id, CI>)
      ensures existing.Keys == store.Keys && forall id :: id in store ==> existing[id] == FoldRecord(store[id])
    {
      existing := map[];
      var todo := store.Keys;
      while todo != {}
        invariant todo <= store.Keys && existing.Keys == store.Keys - todo
        invariant forall id :: id in existing ==> existing[id] == FoldRecord(store[id])
      {
        var id :| id in todo;
        var ci := GetCi(store[id]);
        existing, todo := existing[id := ci.View()], todo - {id};
      }
    }

    /** A new core, then its tags, its status and its relationships. */
    method WriteRecord(id: Id, core: Core, tags: seq<Event>, status: seq<Event>, relates: seq<Event>)
      requires id !in store
      modifies this
      ensures store == old(store)[id := Record(core, tags + status + relates)]
    {
      ghost var was := store;
      assert [] + tags == tags;
      CreateCi(id, core);
      AppendAll(id, tags);
      assert store == was[id := Record(core, tags)];
      AppendAll(id, status);
      assert store == was[id := Record(core, tags + status)];
      AppendAll(id, relates);
    }

    method WriteNew(id: Id, item: Item)
      requires id !in store
      modifies this
      ensures store == old(store)[id := NewRecord(item)]
    {
      var core := Core(item.ciType, item.name, item.description, "", item.node, Desired(item), item.tags);
      var derived := ObservedStatus(item);
      var tags := if item.authority != "" then MapAll(item.tags, TagAs(item.authority)) else [];
      var status := StatusEvents(if derived == Some(OPERATIONAL) then None else derived);
      WriteRecord(id, core, tags, status, MapAll(item.relationships, RelateAs(item.authority)));
    }

    /** Writes what one item asks for: a new record, or the events of an update. */
    method ApplyItem(id: Id, item: Item, current: Option<CI>)
      requires current == Current(store, id)
      modifies this
      ensures store == old(store)[id := Applied(At(old(store), id), item)]
    {
      if current.None? {
        WriteNew(id, item);
      } else if ChangesOf(current.value, item) == NO_CHANGES {
        QuietApply(store[id], item);
      } else {
        AppendAll(id, UpdateEvents(ChangesOf(current.value, item), item));
      }
    }

    /** The loop over `by_id`, against the items as they were listed at the start. */
    method ReconcileItems(d: Dict<Item>, existing: map<Id, CI>, apply: bool) returns (report: Report)
      requires KeysDiffer(d)
      requires existing.Keys == store.Keys && forall id :: id in store ==> existing[id] == FoldRecord(store[id])
      modifies this
      ensures report == ReportOver(old(store), d).(applied := apply)
      ensures store == if apply then ApplyOver(old(store), d) else old(store)
    {
      ghost var was := store;
      report := EMPTY.(applied := apply);
      for k := 0 to |d|
        invariant report == ReportOver(was, d[..k]).(applied := apply)
        invariant store == if apply then ApplyOver(was, d[..k]) else was
      {
        var id, item := d[k].0, d[k].1;
        var current := if id in existing then Some(existing[id]) else None;
        NextEntry(was, d, k);
        ReportItemApplied(ReportOver(was, d[..k]), apply, current, item, id);
        report := ReportItem(report, current, item, id);
        if apply { ApplyItem(id, item, current); }
      }
      assert d[..|d|] == d;
    }

    /** `reconcile`: an applied run and a dry run report the same, and only the first writes. */
    method Reconcile(items: seq<Item>, apply: bool, complete: bool) returns (report: Report)
      modifies this
      ensures report == ReportOf(old(store), items, complete).(applied := apply && FailuresOf(old(store), items) == [])
      ensures store == if apply then Reconciled(old(store), items) else old(store)
    {
      ghost var was := store;
      var failures := Validate(items);
      if failures != [] { return EMPTY.(failures := failures); }
      var existing := ListCis();
      var d := IndexItems(items);
      ByIdHolds(items);
      report := ReconcileItems(d, existing, apply);
      if complete {
        report := report.(orphans := set id | id in existing && Get(d, id).None?
                                              && DISCOVERED in existing[id].tags && existing[id].status != RETIRED);
        assert report.orphans == Orphans(was, d);
      } else {
        UntouchedOrphans(was, d);
      }
    }

    method Validate(items: seq<Item>) returns (failures: seq<Failure>)
      ensures failures == FailuresOf(store, items)
    {
      failures := [];
      var known := store.Keys + IdsOf(items);
      for k := 0 to |items|
        invariant failures == FailuresOver(items[..k], known)
      {
        assert items[..k + 1][..k] == items[..k];
        failures := failures + ItemFailures(items[k], known);
      }
      assert items[..|items|] == items;
    }

    method IndexItems(items: seq<Item>) returns (d: Dict<Item>)
      ensures d == ById(items)
    {
      d := [];
      for k := 0 to |items|
        invariant d == ById(items[..k])
      {
        assert items[..k + 1][..k] == items[..k];
        d := Put(d, items[k].id, items[k]);
      }
      assert items[..|items|] == items;
    }
  }

  lemma ReportItemApplied(r: Report, apply: bool, current: Option<CI>, item: Item, id: Id)
    ensures ReportItem(r.(applied := apply), current, item, id) == ReportItem(r, current, item, id).(applied := apply)
  {
  }

  /** The record of the next entry is still as it was when the run began. */
  lemma NextEntry(was: Store, d: Dict<Item>, k: nat)
    requires KeysDiffer(d) && k < |d|
    ensures At(ApplyOver(was, d[..k]), d[k].0) == At(was, d[k].0)
    ensures ApplyOver(was, d[..k + 1]) == ApplyOver(was, d[..k])[d[k].0 := Applied(At(was, d[k].0), d[k].1)]
    ensures ReportOver(was, d[..k + 1]) == ReportItem(ReportOver(was, d[..k]), Current(was, d[k].0), d[k].1, d[k].0)
  {
    assert d[..k + 1][..k] == d[..k] && d[..k + 1] == d[..k] + [d[k]];
    GetSnoc(d[..k], d[k], d[k].0);
    ApplyOverAt(was, d[..k], d[k].0);
  }

  lemma {:induction false} UntouchedOrphans(store: Store, d: Dict<Item>)
    ensures ReportOver(store, d).orphans == {} && ReportOver(store, d).failures == []
    decreases |d|
  {
    if d != [] { UntouchedOrphans(store, d[..|d| - 1]); }
  }
}
