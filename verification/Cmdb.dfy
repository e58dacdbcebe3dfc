/**
  The event-sourced configuration management database (`cmdb.py`): a write-once core
  and an append-only stream of events fold into one configuration item.
*/
module Cmdb {
  import opened Ordering
  import opened Wrappers

  type Id = string

  /** An attribute value, as JSON keeps it. */
  datatype Value = Null | Text(text: string) | Texts(texts: seq<string>) | Number(number: int)

  // ----- Dictionaries in insertion order -----

  type Dict<V> = seq<(string, V)>

  function Put<V>(d: Dict<V>, k: string, v: V): Dict<V> {
    if d == [] then [(k, v)] else if d[0].0 == k then [(k, v)] + d[1..] else [d[0]] + Put(d[1..], k, v)
  }

  function Get<V>(d: Dict<V>, k: string): Option<V> {
    if d == [] then None else if d[0].0 == k then Some(d[0].1) else Get(d[1..], k)
  }

  function Drop<V>(d: Dict<V>, k: string): Dict<V> {
    Filter(d, (p: (string, V)) => p.0 != k)
  }

  ghost predicate KeysDiffer<V>(d: Dict<V>) {
    forall i, j :: 0 <= i < j < |d| ==> d[i].0 != d[j].0
  }

  lemma {:induction false} GetAfterPut<V>(d: Dict<V>, k: string, v: V, j: string)
    ensures Get(Put(d, k, v), j) == if j == k then Some(v) else Get(d, j)
  {
    if d != [] { GetAfterPut(d[1..], k, v, j); }
  }

  lemma {:induction false} GetAfterDrop<V>(d: Dict<V>, k: string, j: string)
    ensures Get(Drop(d, k), j) == if j == k then None else Get(d, j)
  {
    if d != [] {
      GetAfterDrop(d[1..], k, j);
      if d[0].0 == k { assert Drop(d, k) == Drop(d[1..], k); }
      else { assert Drop(d, k)[1..] == Drop(d[1..], k); }
    }
  }

  lemma {:induction false} GetIsMember<V>(d: Dict<V>, k: string)
    ensures Get(d, k).Some? ==> (k, Get(d, k).value) in d
    ensures Get(d, k).None? ==> forall p :: p in d ==> p.0 != k
  {
    if d != [] {
      GetIsMember(d[1..], k);
      assert d == [d[0]] + d[1..];
    }
  }

  lemma DifferTail<V>(d: Dict<V>)
    requires KeysDiffer(d) && d != []
    ensures KeysDiffer(d[1..]) && forall p :: p in d[1..] ==> p.0 != d[0].0
  {
    var rest := d[1..];
    assert forall i :: 0 <= i < |rest| ==> rest[i] == d[i + 1];
    forall p | p in rest ensures p.0 != d[0].0 {
      var i :| 0 <= i < |rest| && rest[i] == p;
      assert d[i + 1] == p;
    }
  }

  lemma {:induction false} PutMember<V>(d: Dict<V>, k: string, v: V, p: (string, V))
    requires KeysDiffer(d)
    ensures p in Put(d, k, v) <==> p == (k, v) || (p in d && p.0 != k)
  {
    if d != [] {
      DifferTail(d);
      assert d == [d[0]] + d[1..];
      PutMember(d[1..], k, v, p);
    }
  }

  lemma {:induction false} PutKeysDiffer<V>(d: Dict<V>, k: string, v: V)
    requires KeysDiffer(d)
    ensures KeysDiffer(Put(d, k, v))
  {
    if d != [] {
      DifferTail(d);
      PutKeysDiffer(d[1..], k, v);
      if d[0].0 != k {
        var after := Put(d[1..], k, v);
        forall i | 0 <= i < |after| ensures after[i].0 != d[0].0 {
          PutMember(d[1..], k, v, after[i]);
        }
      }
    }
  }

  /** With distinct keys, the entry listed is the entry read. */
  lemma {:induction false} MemberIsGet<V>(d: Dict<V>, p: (string, V))
    requires KeysDiffer(d) && p in d
    ensures Get(d, p.0) == Some(p.1)
  {
    var rest := d[1..];
    assert d == [d[0]] + rest;
    if p != d[0] {
      assert forall i :: 0 <= i < |rest| ==> rest[i] == d[i + 1];
      MemberIsGet(rest, p);
    }
  }

  /** `d.get(k)`. */
  function Read(d: Dict<Value>, k: string): Value {
    if Get(d, k).Some? then Get(d, k).value else Null
  }

  // ----- Configuration items -----

  datatype Relationship = Relationship(relType: string, target: Id, authority: string)

  datatype Core = Core(
    ciType: string, name: string, description: string, owner: string, node: string,
    attributes: Dict<Value>, tags: seq<string>)

  datatype Event =
    | SetStatus(status: string)
    | SetAttribute(key: string, value: Value)
    | Relate(relType: string, target: Id, authority: string)
    | Unrelate(relType: string, target: Id)
    | SetMetadata(field_: string, text: string)
    | Tag(tag: string, authority: string)
    | Untag(tag: string, authority: string)
    | Unknown

  datatype Record = Record(core: Core, events: seq<Event>)

  datatype CI = CI(
    ciType: string, name: string, status: string, description: string, owner: string, node: string,
    attributes: Dict<Value>, relationships: seq<Relationship>, tags: seq<string>, authorities: Dict<string>)

  const OPERATIONAL := "operational"
  const DEGRADED := "degraded"
  const DOWN := "down"
  const RETIRED := "retired"

  function FromCore(core: Core): CI {
    CI(core.ciType, core.name, OPERATIONAL, core.description, core.owner, core.node,
       core.attributes, [], core.tags, [])
  }

  function Others(relType: string, target: Id): Relationship -> bool {
    (r: Relationship) => !(r.relType == relType && r.target == target)
  }

  function WithMetadata(ci: CI, key: string, text: string): CI {
    if key == "name" then ci.(name := text)
    else if key == "description" then ci.(description := text)
    else if key == "owner" then ci.(owner := text)
    else if key == "node" then ci.(node := text)
    else ci
  }

  /** A nonempty tag joins the list once; a nonempty authority takes it over. */
  function WithTag(ci: CI, tag: string, authority: string): CI {
    if tag == "" then ci
    else
      ci.(tags := if tag in ci.tags then ci.tags else ci.tags + [tag],
          authorities := if authority == "" then ci.authorities else Put(ci.authorities, tag, authority))
  }

  /** Only the authority that set a tag, or none at all, removes it. */
  function WithoutTag(ci: CI, tag: string, authority: string): CI {
    if tag == "" || (authority != "" && Get(ci.authorities, tag) != Some(authority)) then ci
    else ci.(tags := Filter(ci.tags, (t: string) => t != tag), authorities := Drop(ci.authorities, tag))
  }

  /** One event, by the branch that `get_ci` takes. */
  function Step(ci: CI, e: Event): CI {
    match e
    case SetStatus(status) => ci.(status := status)
    case SetAttribute(key, value) => if key == "" then ci else ci.(attributes := Put(ci.attributes, key, value))
    case Relate(relType, target, authority) =>
      if target == "" then ci
      else
        ci.(relationships := Filter(ci.relationships, Others(relType, target))
                             + [Relationship(relType, target, authority)])
    case Unrelate(relType, target) => ci.(relationships := Filter(ci.relationships, Others(relType, target)))
    case SetMetadata(key, text) => WithMetadata(ci, key, text)
    case Tag(tag, authority) => WithTag(ci, tag, authority)
    case Untag(tag, authority) => WithoutTag(ci, tag, authority)
    case Unknown => ci
  }

  function FoldFrom(ci: CI, events: seq<Event>): CI
    decreases |events|
  {
    if events == [] then ci else Step(FoldFrom(ci, events[..|events| - 1]), events[|events| - 1])
  }

  /** What `get_ci` returns for a record. */
  function FoldRecord(r: Record): CI {
    FoldFrom(FromCore(r.core), r.events)
  }

  lemma FoldSnoc(ci: CI, events: seq<Event>, e: Event)
    ensures FoldFrom(ci, events + [e]) == Step(FoldFrom(ci, events), e)
  {
    assert (events + [e])[..|events|] == events;
  }

  lemma {:induction false} FoldConcat(ci: CI, a: seq<Event>, b: seq<Event>)
    ensures FoldFrom(ci, a + b) == FoldFrom(FoldFrom(ci, a), b)
    decreases |b|
  {
    if b == [] {
      assert a + b == a;
    } else {
      var front, last := b[..|b| - 1], b[|b| - 1];
      assert a + b == (a + front) + [last];
      FoldConcat(ci, a, front);
      FoldSnoc(ci, a + front, last);
    }
  }

  /** Authorities are recorded for named tags under named authorities, once each. */
  ghost predicate AuthoritiesSound(ci: CI) {
    KeysDiffer(ci.authorities) && forall p :: p in ci.authorities ==> p.0 != "" && p.1 != ""
  }

  lemma {:induction false} DropKeysDiffer(d: Dict<string>, k: string)
    requires KeysDiffer(d)
    ensures KeysDiffer(Drop(d, k)) && forall p :: p in Drop(d, k) <==> p in d && p.0 != k
  {
    forall p ensures p in Drop(d, k) <==> p in d && p.0 != k {
      FilterMember(d, (q: (string, string)) => q.0 != k, p);
    }
    if d != [] {
      var rest := d[1..];
      assert d == [d[0]] + rest;
      assert forall i :: 0 <= i < |rest| ==> rest[i] == d[i + 1];
      DropKeysDiffer(rest, k);
      if d[0].0 == k {
        assert Drop(d, k) == Drop(rest, k);
      } else {
        var after := Drop(rest, k);
        assert Drop(d, k) == [d[0]] + after;
        forall i | 0 <= i < |after| ensures after[i].0 != d[0].0 {
          assert after[i] in after;
        }
      }
    }
  }

  lemma {:induction false} FoldKeepsSound(ci: CI, events: seq<Event>)
    requires AuthoritiesSound(ci)
    ensures AuthoritiesSound(FoldFrom(ci, events))
    decreases |events|
  {
    if events != [] {
      var before, e := FoldFrom(ci, events[..|events| - 1]), events[|events| - 1];
      FoldKeepsSound(ci, events[..|events| - 1]);
      if e.Tag? && e.authority != "" {
        PutKeysDiffer(before.authorities, e.tag, e.authority);
        forall p | p in Put(before.authorities, e.tag, e.authority)
          ensures p == (e.tag, e.authority) || p in before.authorities
        {
          PutMember(before.authorities, e.tag, e.authority, p);
        }
      }
      if e.Untag? { DropKeysDiffer(before.authorities, e.tag); }
    }
  }

  // ----- The item that `get_ci` changes event by event -----

  class ConfigItem {
    var ciType: string
    var name: string
    var status: string
    var description: string
    var owner: string
    var node: string
    var attributes: Dict<Value>
    var relationships: seq<Relationship>
    var tags: seq<string>
    var authorities: Dict<string>

    function View(): CI
      reads this
    {
      CI(ciType, name, status, description, owner, node, attributes, relationships, tags, authorities)
    }

    constructor (core: Core)
      ensures View() == FromCore(core)
    {
      ciType, name, status := core.ciType, core.name, OPERATIONAL;
      description, owner, node := core.description, core.owner, core.node;
      attributes, relationships, tags, authorities := core.attributes, [], core.tags, [];
    }

    method Apply(e: Event)
      modifies this
      ensures View() == Step(old(View()), e)
    {
      if e.SetStatus? {
        status := e.status;
      } else if e.SetAttribute? && e.key != "" {
        attributes := Put(attributes, e.key, e.value);
      } else if e.Relate? && e.target != "" {
        relationships := Filter(relationships, Others(e.relType, e.target));
        relationships := relationships + [Relationship(e.relType, e.target, e.authority)];
      } else if e.Unrelate? {
        relationships := Filter(relationships, Others(e.relType, e.target));
      } else if e.SetMetadata? {
        if e.field_ == "name" { name := e.text; }
        else if e.field_ == "description" { description := e.text; }
        else if e.field_ == "owner" { owner := e.text; }
        else if e.field_ == "node" { node := e.text; }
      } else if e.Tag? && e.tag != "" {
        if e.tag !in tags { tags := tags + [e.tag]; }
        if e.authority != "" { authorities := Put(authorities, e.tag, e.authority); }
      } else if e.Untag? && e.tag != "" {
        if e.authority == "" || Get(authorities, e.tag) == Some(e.authority) {
          tags := Filter(tags, (t: string) => t != e.tag);
          authorities := Drop(authorities, e.tag);
        }
      }
    }
  }

  /** `get_ci`: the fold of a record's events over its core. */
  method GetCi(r: Record) returns (ci: ConfigItem)
    ensures fresh(ci) && ci.View() == FoldRecord(r)
  {
    ci := new ConfigItem(r.core);
    for k := 0 to |r.events|
      invariant fresh(ci) && ci.View() == FoldFrom(FromCore(r.core), r.events[..k])
    {
      assert r.events[..k + 1] == r.events[..k] + [r.events[k]];
      FoldSnoc(FromCore(r.core), r.events[..k], r.events[k]);
      ci.Apply(r.events[k]);
    }
    assert r.events[..|r.events|] == r.events;
  }
}
