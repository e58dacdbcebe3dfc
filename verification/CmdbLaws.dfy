/** What `get_ci` reads, field by field, in terms of the events of the record (`cmdb.py`). */
module CmdbLaws {
  import opened Ordering
  import opened Wrappers
  import opened Cmdb
  import Runs

  /** The item that the event at `i` finds. */
  function Before(born: CI, es: seq<Event>): nat -> CI {
    (i: nat) => if i <= |es| then FoldFrom(born, es[..i]) else born
  }

  ghost predicate LastWrite<V>(born: CI, es: seq<Event>, w: (CI, Event) -> Option<V>, start: V, now: V) {
    Runs.LastWrite(Before(born, es), es, w, start, now)
  }

  lemma LastWins<V>(born: CI, es: seq<Event>, w: (CI, Event) -> Option<V>, f: CI -> V)
    requires forall d, e :: f(Step(d, e)) == if w(d, e).Some? then w(d, e).value else f(d)
    ensures LastWrite(born, es, w, f(born), f(FoldFrom(born, es)))
  {
    var before := Before(born, es);
    forall i | 0 <= i < |es|
      ensures f(before(i + 1)) == if w(before(i), es[i]).Some? then w(before(i), es[i]).value else f(before(i))
    {
      assert es[..i + 1][..i] == es[..i];
    }
    Runs.LastWins(before, es, w, f);
    assert es[..|es|] == es && es[..0] == [];
  }

  // ----- What each event may set -----

  function StatusSet(d: CI, e: Event): Option<string> {
    if e.SetStatus? then Some(e.status) else None
  }

  function MetadataSet(field_: string): (CI, Event) -> Option<string> {
    (d: CI, e: Event) => if e.SetMetadata? && e.field_ == field_ then Some(e.text) else None
  }

  function AttributeSet(key: string): (CI, Event) -> Option<Option<Value>> {
    (d: CI, e: Event) => if e.SetAttribute? && e.key == key && key != "" then Some(Some(e.value)) else None
  }

  /** Relating a pair replaces every relationship of that pair; unrelating drops them. */
  function RelationshipSet(r: Relationship): (CI, Event) -> Option<bool> {
    (d: CI, e: Event) =>
      if e.Relate? && e.target != "" && e.relType == r.relType && e.target == r.target
      then Some(e.authority == r.authority)
      else if e.Unrelate? && e.relType == r.relType && e.target == r.target then Some(false)
      else None
  }

  /** Only the authority that set a tag last, or an event without one, removes it. */
  predicate Removes(d: CI, e: Event, tag: string) {
    e.Untag? && e.tag == tag && tag != "" && (e.authority == "" || Get(d.authorities, tag) == Some(e.authority))
  }

  function TagSet(tag: string): (CI, Event) -> Option<bool> {
    (d: CI, e: Event) =>
      if e.Tag? && e.tag == tag && tag != "" then Some(true) else if Removes(d, e, tag) then Some(false) else None
  }

  function AuthoritySet(tag: string): (CI, Event) -> Option<Option<string>> {
    (d: CI, e: Event) =>
      if e.Tag? && e.tag == tag && tag != "" && e.authority != "" then Some(Some(e.authority))
      else if Removes(d, e, tag) then Some(None)
      else None
  }

  // ----- One event -----

  lemma RelationshipStep(d: CI, e: Event, r: Relationship)
    ensures r in Step(d, e).relationships
            <==> var w := RelationshipSet(r)(d, e); if w.Some? then w.value else r in d.relationships
  {
    if e.Relate? || e.Unrelate? { FilterMember(d.relationships, Others(e.relType, e.target), r); }
  }

  lemma TagStep(d: CI, e: Event, tag: string)
    ensures tag in Step(d, e).tags <==> var w := TagSet(tag)(d, e); if w.Some? then w.value else tag in d.tags
    ensures Get(Step(d, e).authorities, tag)
            == var w := AuthoritySet(tag)(d, e); if w.Some? then w.value else Get(d.authorities, tag)
  {
    if e.Tag? {
      GetAfterPut(d.authorities, e.tag, e.authority, tag);
    } else if e.Untag? {
      FilterMember(d.tags, (t: string) => t != e.tag, tag);
      GetAfterDrop(d.authorities, e.tag, tag);
    }
  }

  lemma AttributeStep(d: CI, e: Event, key: string)
    ensures Get(Step(d, e).attributes, key)
            == var w := AttributeSet(key)(d, e); if w.Some? then w.value else Get(d.attributes, key)
  {
    if e.SetAttribute? { GetAfterPut(d.attributes, e.key, e.value, key); }
  }

  // ----- Every run of events -----

  /** The status is that of the last event that sets one. */
  lemma StatusLaw(born: CI, es: seq<Event>)
    ensures LastWrite(born, es, StatusSet, born.status, FoldFrom(born, es).status)
  {
    LastWins(born, es, StatusSet, (c: CI) => c.status);
  }

  function MetadataOf(c: CI, field_: string): string {
    if field_ == "name" then c.name
    else if field_ == "description" then c.description
    else if field_ == "owner" then c.owner
    else c.node
  }

  lemma MetadataStep(d: CI, e: Event, field_: string)
    requires field_ in {"name", "description", "owner", "node"}
    ensures MetadataOf(Step(d, e), field_)
            == var w := MetadataSet(field_)(d, e); if w.Some? then w.value else MetadataOf(d, field_)
  {
  }

  /** Each of the four mutable texts is that of the last event that sets it. */
  lemma MetadataLaw(born: CI, es: seq<Event>, field_: string)
    requires field_ in {"name", "description", "owner", "node"}
    ensures LastWrite(born, es, MetadataSet(field_), MetadataOf(born, field_), MetadataOf(FoldFrom(born, es), field_))
  {
    var f := (c: CI) => MetadataOf(c, field_);
    forall d, e ensures f(Step(d, e)) == var w := MetadataSet(field_)(d, e); if w.Some? then w.value else f(d) {
      MetadataStep(d, e, field_);
    }
    LastWins(born, es, MetadataSet(field_), f);
  }

  lemma {:induction false} TypeStays(born: CI, es: seq<Event>)
    ensures FoldFrom(born, es).ciType == born.ciType
    decreases |es|
  {
    if es != [] { TypeStays(born, es[..|es| - 1]); }
  }

  /** An attribute reads what the last event under its key set; the empty key is never set. */
  lemma AttributeLaw(born: CI, es: seq<Event>, key: string)
    ensures LastWrite(born, es, AttributeSet(key), Get(born.attributes, key), Get(FoldFrom(born, es).attributes, key))
  {
    var f := (c: CI) => Get(c.attributes, key);
    forall d, e ensures f(Step(d, e)) == var w := AttributeSet(key)(d, e); if w.Some? then w.value else f(d) {
      AttributeStep(d, e, key);
    }
    LastWins(born, es, AttributeSet(key), f);
  }

  /** A relationship is held exactly when the last event about its pair related it under its authority. */
  lemma RelationshipLaw(born: CI, es: seq<Event>, r: Relationship)
    ensures LastWrite(born, es, RelationshipSet(r), r in born.relationships, r in FoldFrom(born, es).relationships)
  {
    var f := (c: CI) => r in c.relationships;
    forall d, e ensures f(Step(d, e)) == var w := RelationshipSet(r)(d, e); if w.Some? then w.value else f(d) {
      RelationshipStep(d, e, r);
    }
    LastWins(born, es, RelationshipSet(r), f);
  }

  /** A tag is held exactly when the last event that may add or remove it added it. */
  lemma TagLaw(born: CI, es: seq<Event>, tag: string)
    ensures LastWrite(born, es, TagSet(tag), tag in born.tags, tag in FoldFrom(born, es).tags)
    ensures LastWrite(born, es, AuthoritySet(tag), Get(born.authorities, tag), Get(FoldFrom(born, es).authorities, tag))
  {
    var f, g := (c: CI) => tag in c.tags, (c: CI) => Get(c.authorities, tag);
    forall d, e ensures f(Step(d, e)) == (var w := TagSet(tag)(d, e); if w.Some? then w.value else f(d))
                ensures g(Step(d, e)) == (var w := AuthoritySet(tag)(d, e); if w.Some? then w.value else g(d))
    {
      TagStep(d, e, tag);
    }
    LastWins(born, es, TagSet(tag), f);
    LastWins(born, es, AuthoritySet(tag), g);
  }

  /** What a record reads before any event. */
  lemma BornAs(core: Core)
    ensures var c := FoldRecord(Record(core, []));
            && c.status == "operational" && c.name == core.name && c.description == core.description
            && c.owner == core.owner && c.node == core.node && c.ciType == core.ciType
            && c.attributes == core.attributes && c.tags == core.tags && c.relationships == [] && c.authorities == []
  {
  }
}
