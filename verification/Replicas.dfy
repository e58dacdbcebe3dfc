/**
  Replicas of one card hold the same events in different writer files and in the
  legacy overlay, and read them in different orders. They fold to the same card.
*/
module Replicas {
  import opened Ordering
  import opened Sequences
  import opened Wrappers
  import opened CardFold

  /** Sorting the store's events first and the union again is one sort of the union. */
  lemma StreamIsOneSort(files: seq<seq<Event>>, legacy: seq<Event>)
    ensures Stream(files, legacy) == StableSort(Flatten(files) + legacy, EVENT_KEY)
  {
    if legacy == [] {
      assert Flatten(files) + legacy == Flatten(files);
    } else {
      TwoStageSort(Flatten(files), legacy, EVENT_KEY);
    }
  }

  /**
    Any two distributions of the same events over writer files and the legacy
    overlay, read in any order, give the same stream and the same card, as long
    as no two different events share a (ts, writer, seq) key.
  */
  lemma ReplicasConverge(core: Core, files: seq<seq<Event>>, legacy: seq<Event>,
                         files': seq<seq<Event>>, legacy': seq<Event>)
    requires multiset(Flatten(files) + legacy) == multiset(Flatten(files') + legacy')
    requires KeysIdentify(multiset(Flatten(files) + legacy), EVENT_KEY)
    ensures Stream(files, legacy) == Stream(files', legacy')
    ensures FoldCard(core, files, legacy) == FoldCard(core, files', legacy')
  {
    StreamIsOneSort(files, legacy);
    StreamIsOneSort(files', legacy');
    SortIgnoresArrangement(Flatten(files) + legacy, Flatten(files') + legacy', EVENT_KEY);
  }

  // ----- Distinct keys are needed -----

  function Of(key: Key): Event -> bool {
    (e: Event) => e.key == key
  }

  lemma OneKeySorts(s: seq<Event>, key: Key)
    requires forall e :: e in s ==> e.key == key
    ensures StableSort(s, EVENT_KEY) == s
  {
    KeyTotal(key, key);
    assert Sorted(s, EVENT_KEY) by {
      forall i | 0 <= i < |s| ensures EVENT_KEY(s[i]) == key { assert s[i] in s; }
    }
    assert [] + s == s;
    InsertAllInOrder([], s, EVENT_KEY);
  }

  /** What a sorted stream shows of one key is what was written under it, in order. */
  lemma SortShowsOrder(s: seq<Event>, key: Key)
    ensures Filter(StableSort(s, EVENT_KEY), Of(key)) == Filter(s, Of(key))
  {
    FilterSort(s, EVENT_KEY, Of(key));
    forall e | e in Filter(s, Of(key)) ensures e.key == key { FilterMember(s, Of(key), e); }
    OneKeySorts(Filter(s, Of(key)), key);
  }

  lemma TwoFirstShow(x: Event, y: Event, rest: seq<Event>)
    requires x.key == y.key && x != y
    ensures StableSort([x, y] + rest, EVENT_KEY) != StableSort([y, x] + rest, EVENT_KEY)
  {
    var key := x.key;
    SortShowsOrder([x, y] + rest, key);
    SortShowsOrder([y, x] + rest, key);
    assert ([x, y] + rest)[0] == x && Filter([x, y] + rest, Of(key))[0] == x;
    assert ([y, x] + rest)[0] == y && Filter([y, x] + rest, Of(key))[0] == y;
  }

  /** One writer file that begins with `x` and `y`, and one that begins with `y` and `x`. */
  /** Every stream is read by time, then by writer, then by the writer's own numbering. */
  lemma StreamIsInOrder(files: seq<seq<Event>>, legacy: seq<Event>, i: nat, j: nat)
    requires i < j < |Stream(files, legacy)|
    ensures var a, b := Stream(files, legacy)[i].key, Stream(files, legacy)[j].key;
            && StrLeq(a.ts, b.ts)
            && (a.ts == b.ts ==> StrLeq(a.writer, b.writer))
            && (a.ts == b.ts && a.writer == b.writer ==> a.seq_ <= b.seq_)
  {
    SortSorts(Flatten(files), EVENT_KEY);
    SortSorts(ReadEvents(files) + legacy, EVENT_KEY);
    var a, b := Stream(files, legacy)[i], Stream(files, legacy)[j];
    assert KeyLeq(EVENT_KEY(a), EVENT_KEY(b));
    StrTotal(a.key.ts, b.key.ts);
    StrTotal(a.key.writer, b.key.writer);
  }

  lemma TwoArrangements(m: seq<Event>, x: Event, y: Event) returns (rest: seq<Event>)
    requires x in m && y in m && x != y
    ensures multiset([x, y] + rest) == multiset(m) && multiset([y, x] + rest) == multiset(m)
  {
    RemoveFirstCounts(m, x);
    RemoveFirstDrops(m, x);
    RemoveFirstCounts(RemoveFirst(m, x), y);
    rest := RemoveFirst(RemoveFirst(m, x), y);
    assert multiset([x, y] + rest) == multiset{x, y} + multiset(rest);
    assert multiset([y, x] + rest) == multiset{x, y} + multiset(rest);
  }

  lemma OneFile(s: seq<Event>)
    ensures Flatten([s]) + [] == s && Stream([s], []) == StableSort(s, EVENT_KEY)
  {
    assert [s][..0] == [] && Flatten([s]) == [] + s;
    assert [] + s == s && s + [] == s;
  }

  /** Where all the events of one collection of files may be, and in what order. */
  ghost predicate SameEvents(files: seq<seq<Event>>, legacy: seq<Event>, files': seq<seq<Event>>, legacy': seq<Event>) {
    multiset(Flatten(files) + legacy) == multiset(Flatten(files') + legacy')
  }

  /** Two distributions of the same events whose streams differ. */
  lemma OneKeyTwoStreams(files: seq<seq<Event>>, legacy: seq<Event>, x: Event, y: Event)
    returns (p: seq<Event>, q: seq<Event>)
    requires x in Flatten(files) + legacy && y in Flatten(files) + legacy && x.key == y.key && x != y
    ensures SameEvents(files, legacy, [p], []) && SameEvents(files, legacy, [q], [])
    ensures Stream([p], []) != Stream([q], [])
  {
    var rest := TwoArrangements(Flatten(files) + legacy, x, y);
    p, q := [x, y] + rest, [y, x] + rest;
    TwoFirstShow(x, y, rest);
    OneFile(p);
    OneFile(q);
  }

  lemma OneStream(files: seq<seq<Event>>, legacy: seq<Event>, files': seq<seq<Event>>, legacy': seq<Event>)
    requires KeysIdentify(multiset(Flatten(files) + legacy), EVENT_KEY) && SameEvents(files, legacy, files', legacy')
    ensures Stream(files', legacy') == Stream(files, legacy)
  {
    StreamIsOneSort(files, legacy);
    StreamIsOneSort(files', legacy');
    SortIgnoresArrangement(Flatten(files) + legacy, Flatten(files') + legacy', EVENT_KEY);
  }

  /** Every distribution of these events has the same stream. */
  ghost predicate AlwaysOneStream(files: seq<seq<Event>>, legacy: seq<Event>) {
    forall files', legacy' :: SameEvents(files, legacy, files', legacy') ==>
      Stream(files', legacy') == Stream(files, legacy)
  }

  lemma SharedKeySplitsStreams(files: seq<seq<Event>>, legacy: seq<Event>)
    requires !KeysIdentify(multiset(Flatten(files) + legacy), EVENT_KEY)
    ensures !AlwaysOneStream(files, legacy)
  {
    var all := multiset(Flatten(files) + legacy);
    var x, y :| x in all && y in all && EVENT_KEY(x) == EVENT_KEY(y) && x != y;
    var p, q := OneKeyTwoStreams(files, legacy, x, y);
  }

  /** All distributions of a collection of events give one stream exactly when keys identify them. */
  lemma StreamsAgreeExactly(files: seq<seq<Event>>, legacy: seq<Event>)
    ensures AlwaysOneStream(files, legacy) <==> KeysIdentify(multiset(Flatten(files) + legacy), EVENT_KEY)
  {
    if KeysIdentify(multiset(Flatten(files) + legacy), EVENT_KEY) {
      forall files', legacy' | SameEvents(files, legacy, files', legacy')
        ensures Stream(files', legacy') == Stream(files, legacy)
      {
        OneStream(files, legacy, files', legacy');
      }
    } else {
      SharedKeySplitsStreams(files, legacy);
    }
  }

  /** An event that carries a key and an action and nothing else. */
  function Bare(key: Key, action: Action): Event {
    Event(key, action, None, None, None, None, None, None, None, None, None, None, None, None, None, None, None, None)
  }

  /** With a shared key the order of the files shows: the condition is needed. */
  lemma SharedKeysDiverge(core: Core, key: Key)
    requires core.owner == None
    ensures var high := Bare(key, SetPriority).(priority := Some("high"));
            var low := Bare(key, SetPriority).(priority := Some("low"));
            && multiset(Flatten([[high], [low]])) == multiset(Flatten([[low], [high]]))
            && FoldCard(core, [[high], [low]], []) != FoldCard(core, [[low], [high]], [])
  {
    var high := Bare(key, SetPriority).(priority := Some("high"));
    var low := Bare(key, SetPriority).(priority := Some("low"));
    KeyTotal(key, key);
    PairInOrder(core, high, low);
    PairInOrder(core, low, high);
  }

  lemma PairInOrder(core: Core, a: Event, b: Event)
    requires core.owner == None && a.key == b.key && KeyLeq(a.key, b.key)
    requires a.action == SetPriority && b.action == SetPriority && Truthy(a.priority) && Truthy(b.priority)
    ensures Flatten([[a], [b]]) == [a, b]
    ensures FoldCard(core, [[a], [b]], []).Success?
    ensures FoldCard(core, [[a], [b]], []).value.priority == b.priority.value
  {
    assert [[a], [b]][..1] == [[a]] && [[a]][..0] == [];
    assert Flatten([[a]]) == [] + [a];
    var c := Birth(core).value;
    SortTwo(a, b, EVENT_KEY);
    FoldTwo(c, a, b);
  }
}
