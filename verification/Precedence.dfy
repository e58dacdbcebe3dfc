/**
  Which sighting each field of a merged record comes from (`DiscoveredCI.merged_with`),
  and when a declaration prevails over an observation.
*/
module Precedence {
  import opened Ordering
  import opened Wrappers
  import opened DiscoveryMerge

  // ----- The fold, with the order in which sightings take precedence -----

  /** `rank` lists the sightings of a record, the one that prevails first. */
  datatype Ranked = Ranked(record: Record, rank: seq<nat>)

  const RECORD: Ranked -> Record := (x: Ranked) => x.record

  /** `a.merged_with(b)`: an observation goes before what was only declared. */
  function MergedRanked(a: Ranked, b: Ranked): Ranked {
    var ca, cb := a.record.ci, b.record.ci;
    Ranked(Record(MergedWith(ca, cb), a.record.block + b.record.block),
           if cb.observed && !ca.observed then b.rank + a.rank else a.rank + b.rank)
  }

  function AbsorbRanked(matches: seq<Ranked>, merged: Ranked): Ranked
    decreases |matches|
  {
    if matches == [] then merged else AbsorbRanked(matches[1..], MergedRanked(matches[0], merged))
  }

  function RankedMatch(item: DiscoveredCI, slug: Slug): Ranked -> bool {
    (x: Ranked) => Matches(x.record.ci, item, slug)
  }

  function RankedOther(item: DiscoveredCI, slug: Slug): Ranked -> bool {
    (x: Ranked) => !Matches(x.record.ci, item, slug)
  }

  function AddRanked(xs: seq<Ranked>, item: DiscoveredCI, n: nat, slug: Slug): seq<Ranked> {
    Filter(xs, RankedOther(item, slug))
    + [AbsorbRanked(Filter(xs, RankedMatch(item, slug)), Ranked(Record(item, {n}), [n]))]
  }

  function FoldRanked(items: seq<DiscoveredCI>, slug: Slug): seq<Ranked> {
    if items == [] then []
    else AddRanked(FoldRanked(items[..|items| - 1], slug), items[|items| - 1], |items| - 1, slug)
  }

  lemma {:induction false} AbsorbRankedIs(matches: seq<Ranked>, merged: Ranked)
    ensures AbsorbRanked(matches, merged).record == Absorb(MapAll(matches, RECORD), merged.record)
    decreases |matches|
  {
    if matches != [] {
      assert MapAll(matches, RECORD)[1..] == MapAll(matches[1..], RECORD);
      AbsorbRankedIs(matches[1..], MergedRanked(matches[0], merged));
    }
  }

  /** Ranking changes no record. */
  lemma {:induction false} RankedFoldIs(items: seq<DiscoveredCI>, slug: Slug)
    ensures MapAll(FoldRanked(items, slug), RECORD) == Fold(items, slug)
  {
    if items != [] {
      var n := |items| - 1;
      var xs, item := FoldRanked(items[..n], slug), items[n];
      RankedFoldIs(items[..n], slug);
      AddRankedIs(xs, item, n, slug);
    }
  }

  lemma AddRankedIs(xs: seq<Ranked>, item: DiscoveredCI, n: nat, slug: Slug)
    ensures MapAll(AddRanked(xs, item, n, slug), RECORD) == AddSighting(MapAll(xs, RECORD), item, n, slug)
  {
    var rs := MapAll(xs, RECORD);
    FilterMap(xs, RECORD, RankedMatch(item, slug), MatchOf(item, slug));
    FilterMap(xs, RECORD, RankedOther(item, slug), OtherThan(item, slug));
    AbsorbRankedIs(Filter(xs, RankedMatch(item, slug)), Ranked(Record(item, {n}), [n]));
    AddedIsSnoc(rs, item, n, slug);
  }

  // ----- Every field follows the rank -----

  function FirstThat(rank: seq<nat>, p: nat -> bool): Option<nat> {
    if rank == [] then None else if p(rank[0]) then Some(rank[0]) else FirstThat(rank[1..], p)
  }

  lemma {:induction false} FirstOfBoth(a: seq<nat>, b: seq<nat>, p: nat -> bool)
    ensures FirstThat(a + b, p) == if FirstThat(a, p).Some? then FirstThat(a, p) else FirstThat(b, p)
  {
    if a == [] {
      assert a + b == b;
    } else {
      assert (a + b)[1..] == a[1..] + b;
      FirstOfBoth(a[1..], b, p);
    }
  }

  lemma {:induction false} FirstIsThere(rank: seq<nat>, p: nat -> bool)
    ensures FirstThat(rank, p).Some? ==> FirstThat(rank, p).value in rank && p(FirstThat(rank, p).value)
    ensures FirstThat(rank, p).None? ==> forall i :: i in rank ==> !p(i)
  {
    if rank != [] {
      FirstIsThere(rank[1..], p);
      assert rank == [rank[0]] + rank[1..];
    }
  }

  lemma {:induction false} FirstAgrees(rank: seq<nat>, p: nat -> bool, q: nat -> bool)
    requires forall i :: i in rank ==> p(i) == q(i)
    ensures FirstThat(rank, p) == FirstThat(rank, q)
  {
    if rank != [] { FirstAgrees(rank[1..], p, q); }
  }

  function Has(items: seq<DiscoveredCI>, key: string): nat -> bool {
    (i: nat) => i < |items| && key in items[i].attributes
  }

  /** The scalar fields that `merged_with` takes from the primary, or else from the other. */
  datatype Field = Node | Description | ScanId | LifecycleScope

  function Read(ci: DiscoveredCI, field_: Field): string {
    match field_
    case Node => ci.node
    case Description => ci.description
    case ScanId => ci.scanId
    case LifecycleScope => ci.lifecycleScope
  }

  function Fills(items: seq<DiscoveredCI>, field_: Field): nat -> bool {
    (i: nat) => i < |items| && Read(items[i], field_) != ""
  }

  ghost predicate AttributeFollows(items: seq<DiscoveredCI>, x: Ranked, key: string) {
    var source, attributes := FirstThat(x.rank, Has(items, key)), x.record.ci.attributes;
    if source.None? then key !in attributes
    else
      && source.value < |items| && key in items[source.value].attributes
      && key in attributes && attributes[key] == items[source.value].attributes[key]
  }

  ghost predicate FieldFollows(items: seq<DiscoveredCI>, x: Ranked, field_: Field) {
    var source, value := FirstThat(x.rank, Fills(items, field_)), Read(x.record.ci, field_);
    if source.None? then value == "" else source.value < |items| && value == Read(items[source.value], field_)
  }

  /** The rank lists the block, and every field of the record is that of the first sighting that has it. */
  ghost predicate Follows(items: seq<DiscoveredCI>, x: Ranked) {
    var ci := x.record.ci;
    && x.rank != [] && x.rank[0] < |items| && (forall i :: i in x.rank <==> i in x.record.block)
    && (forall i :: i in x.rank ==> i < |items|)
    && ci.name == items[x.rank[0]].name && ci.observed == items[x.rank[0]].observed
    && (forall key :: AttributeFollows(items, x, key))
    && (forall field_ :: FieldFollows(items, x, field_))
  }

  /** The scan time is the latest of the block; a record of several sightings says how it is known. */
  ghost predicate Dated(items: seq<DiscoveredCI>, x: Ranked) {
    var ci := x.record.ci;
    && (exists i :: i in x.rank && i < |items| && items[i].observedAt == ci.observedAt)
    && (forall i :: i in x.rank && i < |items| ==> StrLeq(items[i].observedAt, ci.observedAt))
    && (if |x.rank| == 1 then x.rank[0] < |items| && ci.authority == items[x.rank[0]].authority
        else ci.authority == if ci.observed then "observed" else "declared")
  }

  lemma DatedMerged(items: seq<DiscoveredCI>, a: Ranked, b: Ranked)
    requires Dated(items, a) && Dated(items, b) && a.rank != [] && b.rank != []
    ensures Dated(items, MergedRanked(a, b)) && MergedRanked(a, b).rank != []
  {
    var s, t, x := a.record.ci.observedAt, b.record.ci.observedAt, MergedRanked(a, b);
    StrTotal(s, t);
    forall i | i in x.rank && i < |items| ensures StrLeq(items[i].observedAt, Greatest(s, t)) {
      if i in a.rank && StrLeq(s, t) { StrTransitive(items[i].observedAt, s, t); }
      if i in b.rank && !StrLeq(s, t) { StrTransitive(items[i].observedAt, t, s); }
    }
    var source := if StrLeq(s, t) then b else a;
    var i :| i in source.rank && i < |items| && items[i].observedAt == source.record.ci.observedAt;
    assert i in x.rank;
  }

  lemma {:induction false} AbsorbDated(items: seq<DiscoveredCI>, matches: seq<Ranked>, merged: Ranked)
    requires Dated(items, merged) && merged.rank != []
    requires forall k :: 0 <= k < |matches| ==> Dated(items, matches[k]) && matches[k].rank != []
    ensures Dated(items, AbsorbRanked(matches, merged)) && AbsorbRanked(matches, merged).rank != []
    decreases |matches|
  {
    if matches != [] {
      DatedMerged(items, matches[0], merged);
      AbsorbDated(items, matches[1..], MergedRanked(matches[0], merged));
    }
  }

  lemma DatedMore(items: seq<DiscoveredCI>, more: seq<DiscoveredCI>, x: Ranked)
    requires items <= more && Dated(items, x) && forall i :: i in x.rank ==> i < |items|
    ensures Dated(more, x)
  {
    var i :| i in x.rank && i < |items| && items[i].observedAt == x.record.ci.observedAt;
    assert more[i] == items[i];
    forall k | k in x.rank ensures more[k] == items[k] {
    }
  }

  lemma DatedOne(items: seq<DiscoveredCI>, n: nat)
    requires n < |items|
    ensures Dated(items, Ranked(Record(items[n], {n}), [n]))
  {
    StrTotal(items[n].observedAt, items[n].observedAt);
    assert n in [n];
  }

  /** Every record carries the latest scan time of its sightings, and is observed if any of them was. */
  lemma {:induction false} RecordsAreDated(items: seq<DiscoveredCI>, slug: Slug)
    ensures forall x :: x in FoldRanked(items, slug) ==> Dated(items, x) && x.rank != []
  {
    if items != [] {
      var n := |items| - 1;
      var front, item := items[..n], items[n];
      var xs := FoldRanked(front, slug);
      assert front <= items;
      RecordsAreDated(front, slug);
      RecordsFollowTheirRank(front, slug);
      forall x | x in xs ensures Dated(items, x) && x.rank != [] {
        assert Follows(front, x);
        DatedMore(front, items, x);
      }
      forall x | x in Filter(xs, RankedOther(item, slug)) ensures x in xs {
        FilterMember(xs, RankedOther(item, slug), x);
      }
      var matches := Filter(xs, RankedMatch(item, slug));
      forall k | 0 <= k < |matches| ensures matches[k] in xs {
        FilterMember(xs, RankedMatch(item, slug), matches[k]);
      }
      DatedOne(items, n);
      AbsorbDated(items, matches, Ranked(Record(item, {n}), [n]));
    }
  }

  lemma FollowsOne(items: seq<DiscoveredCI>, n: nat)
    requires n < |items|
    ensures Follows(items, Ranked(Record(items[n], {n}), [n]))
  {
    var x := Ranked(Record(items[n], {n}), [n]);
    assert x.rank[1..] == [];
    forall key ensures AttributeFollows(items, x, key) {
      assert FirstThat([n][1..], Has(items, key)) == None;
    }
    forall field_ ensures FieldFollows(items, x, field_) {
      assert FirstThat([n][1..], Fills(items, field_)) == None;
    }
  }

  lemma AttributeMerged(items: seq<DiscoveredCI>, a: Ranked, b: Ranked, key: string)
    requires AttributeFollows(items, a, key) && AttributeFollows(items, b, key)
    ensures AttributeFollows(items, MergedRanked(a, b), key)
  {
    FirstOfBoth(a.rank, b.rank, Has(items, key));
    FirstOfBoth(b.rank, a.rank, Has(items, key));
    FirstIsThere(a.rank, Has(items, key));
    FirstIsThere(b.rank, Has(items, key));
  }

  lemma FieldMerged(items: seq<DiscoveredCI>, a: Ranked, b: Ranked, field_: Field)
    requires FieldFollows(items, a, field_) && FieldFollows(items, b, field_)
    ensures FieldFollows(items, MergedRanked(a, b), field_)
  {
    FirstOfBoth(a.rank, b.rank, Fills(items, field_));
    FirstOfBoth(b.rank, a.rank, Fills(items, field_));
    FirstIsThere(a.rank, Fills(items, field_));
    FirstIsThere(b.rank, Fills(items, field_));
  }

  lemma FollowsMerged(items: seq<DiscoveredCI>, a: Ranked, b: Ranked)
    requires Follows(items, a) && Follows(items, b)
    ensures Follows(items, MergedRanked(a, b))
  {
    forall key ensures AttributeFollows(items, MergedRanked(a, b), key) {
      AttributeMerged(items, a, b, key);
    }
    forall field_ ensures FieldFollows(items, MergedRanked(a, b), field_) {
      FieldMerged(items, a, b, field_);
    }
  }

  lemma {:induction false} AbsorbFollows(items: seq<DiscoveredCI>, matches: seq<Ranked>, merged: Ranked)
    requires Follows(items, merged) && forall k :: 0 <= k < |matches| ==> Follows(items, matches[k])
    ensures Follows(items, AbsorbRanked(matches, merged))
    decreases |matches|
  {
    if matches != [] {
      FollowsMerged(items, matches[0], merged);
      AbsorbFollows(items, matches[1..], MergedRanked(matches[0], merged));
    }
  }

  /** Later sightings change nothing for a record they do not join. */
  lemma FollowsMore(items: seq<DiscoveredCI>, more: seq<DiscoveredCI>, x: Ranked)
    requires items <= more && Follows(items, x)
    ensures Follows(more, x)
  {
    assert x.rank[0] in x.rank;
    forall key ensures AttributeFollows(more, x, key) {
      FirstAgrees(x.rank, Has(items, key), Has(more, key));
      FirstIsThere(x.rank, Has(items, key));
      assert AttributeFollows(items, x, key);
    }
    forall field_ ensures FieldFollows(more, x, field_) {
      FirstAgrees(x.rank, Fills(items, field_), Fills(more, field_));
      FirstIsThere(x.rank, Fills(items, field_));
      assert FieldFollows(items, x, field_);
    }
  }

  /**
    For machines too: each attribute, node, description, scan and scope of a merged
    record is that of the first sighting in its rank that has one, its name that of the
    very first, which is an observation whenever the record has any.
  */
  lemma {:induction false} RecordsFollowTheirRank(items: seq<DiscoveredCI>, slug: Slug)
    ensures MapAll(FoldRanked(items, slug), RECORD) == Fold(items, slug)
    ensures forall x :: x in FoldRanked(items, slug) ==> Follows(items, x)
  {
    RankedFoldIs(items, slug);
    if items != [] {
      var n := |items| - 1;
      var front, item := items[..n], items[n];
      var xs := FoldRanked(front, slug);
      assert front <= items;
      RecordsFollowTheirRank(front, slug);
      forall x | x in Filter(xs, RankedOther(item, slug)) ensures Follows(items, x) {
        FilterMember(xs, RankedOther(item, slug), x);
        FollowsMore(front, items, x);
      }
      var matches := Filter(xs, RankedMatch(item, slug));
      forall k | 0 <= k < |matches| ensures Follows(items, matches[k]) {
        FilterMember(xs, RankedMatch(item, slug), matches[k]);
        FollowsMore(front, items, matches[k]);
      }
      FollowsOne(items, n);
      AbsorbFollows(items, matches, Ranked(Record(item, {n}), [n]));
    }
  }

  // ----- The rank of a record that one id alone brings together -----

  ghost predicate Ascending(s: seq<nat>) {
    forall i, j :: 0 <= i < j < |s| ==> s[i] < s[j]
  }

  ghost predicate NoneObserved(items: seq<DiscoveredCI>, s: seq<nat>) {
    forall i :: 0 <= i < |s| ==> s[i] < |items| && !items[s[i]].observed
  }

  /** The first observed sighting, if there is one, and then the others in the order they came. */
  ghost predicate Promoted(items: seq<DiscoveredCI>, rank: seq<nat>) {
    && rank != [] && rank[0] < |items|
    && (forall i :: 0 <= i < |rank| ==> rank[i] < |items|)
    && if items[rank[0]].observed then
         && Ascending(rank[1..])
         && (forall i :: 1 <= i < |rank| && items[rank[i]].observed ==> rank[0] < rank[i])
       else Ascending(rank) && NoneObserved(items, rank)
  }

  /** At most one record has the id of a sighting that is no machine. */
  lemma OneMatchAtMost(items: seq<DiscoveredCI>, rs: seq<Record>, item: DiscoveredCI, slug: Slug)
    requires Partition(items, rs, slug) && !item.HostLike()
    ensures |Filter(rs, MatchOf(item, slug))| <= 1
  {
    var matches := Filter(rs, MatchOf(item, slug));
    FilterSeparated(rs, MatchOf(item, slug), slug);
    assert |matches| > 1 ==> Apart(matches[0], matches[1], slug);
    if |matches| > 1 {
      FilterMember(rs, MatchOf(item, slug), matches[0]);
      FilterMember(rs, MatchOf(item, slug), matches[1]);
      MatchIsOneId(matches[0].ci, matches[1].ci, item, slug);
    }
  }

  lemma MatchIsOneId(a: DiscoveredCI, b: DiscoveredCI, item: DiscoveredCI, slug: Slug)
    requires Matches(a, item, slug) && Matches(b, item, slug) && !item.HostLike()
    ensures Matches(a, b, slug)
  {
  }

  lemma AscendingSnoc(s: seq<nat>, n: nat)
    requires Ascending(s) && forall i :: 0 <= i < |s| ==> s[i] < n
    ensures Ascending(s + [n])
  {
  }

  /** A later sighting goes to the end, or to the front if it is the first observation. */
  lemma PromotedNext(items: seq<DiscoveredCI>, rank: seq<nat>, n: nat)
    requires Promoted(items, rank) && n < |items| && forall i :: 0 <= i < |rank| ==> rank[i] < n
    ensures Promoted(items, if items[n].observed && !items[rank[0]].observed then [n] + rank else rank + [n])
  {
    if items[n].observed && !items[rank[0]].observed {
      ToTheFront(items, rank, n);
    } else if items[rank[0]].observed {
      BehindTheFirst(items, rank, n);
    } else {
      ToTheEnd(items, rank, n);
    }
  }

  lemma ToTheFront(items: seq<DiscoveredCI>, rank: seq<nat>, n: nat)
    requires Ascending(rank) && NoneObserved(items, rank) && n < |items| && items[n].observed
    ensures Promoted(items, [n] + rank)
  {
    var r := [n] + rank;
    assert r[1..] == rank && r[0] == n;
    forall i | 1 <= i < |r| ensures r[i] < |items| && !items[r[i]].observed {
      assert r[i] == rank[i - 1];
    }
  }

  lemma BehindTheFirst(items: seq<DiscoveredCI>, rank: seq<nat>, n: nat)
    requires Promoted(items, rank) && items[rank[0]].observed && n < |items|
    requires forall i :: 0 <= i < |rank| ==> rank[i] < n
    ensures Promoted(items, rank + [n])
  {
    var r, tail := rank + [n], rank[1..];
    assert r[1..] == tail + [n] && r[0] == rank[0];
    assert forall i :: 0 <= i < |tail| ==> tail[i] == rank[i + 1];
    AscendingSnoc(tail, n);
    forall i | 0 <= i < |r| ensures r[i] < |items| && (i > 0 && items[r[i]].observed ==> r[0] < r[i]) {
      if i < |rank| { assert r[i] == rank[i]; }
    }
  }

  lemma ToTheEnd(items: seq<DiscoveredCI>, rank: seq<nat>, n: nat)
    requires rank != [] && Ascending(rank) && NoneObserved(items, rank) && n < |items| && !items[n].observed
    requires forall i :: 0 <= i < |rank| ==> rank[i] < n
    ensures Promoted(items, rank + [n])
  {
    var r := rank + [n];
    AscendingSnoc(rank, n);
    forall i | 0 <= i < |r| ensures r[i] < |items| && !items[r[i]].observed {
      if i < |rank| { assert r[i] == rank[i]; }
    }
  }

  ghost predicate AllPromoted(items: seq<DiscoveredCI>, xs: seq<Ranked>) {
    forall x :: x in xs && !x.record.ci.HostLike() ==> Promoted(items, x.rank)
  }

  lemma PromotedMore(items: seq<DiscoveredCI>, more: seq<DiscoveredCI>, rank: seq<nat>)
    requires items <= more && Promoted(items, rank)
    ensures Promoted(more, rank)
  {
  }

  /** The record a sighting joins: a machine, or promoted like the one it was matched with. */
  lemma AddedIsPromoted(items: seq<DiscoveredCI>, xs: seq<Ranked>, item: DiscoveredCI, slug: Slug)
    requires Partition(items, MapAll(xs, RECORD), slug) && !item.HostLike() && AllPromoted(items, xs)
    requires forall x :: x in xs ==> Follows(items, x)
    ensures Promoted(items + [item], AbsorbRanked(Filter(xs, RankedMatch(item, slug)),
                                                  Ranked(Record(item, {|items|}), [|items|])).rank)
  {
    var matches := Filter(xs, RankedMatch(item, slug));
    FilterMap(xs, RECORD, RankedMatch(item, slug), MatchOf(item, slug));
    OneMatchAtMost(items, MapAll(xs, RECORD), item, slug);
    if matches == [] {
      AloneIsPromoted(items, item);
    } else {
      OneMatchIsPromoted(items, xs, matches[0], item, slug);
      assert matches == [matches[0]];
    }
  }

  lemma AloneIsPromoted(items: seq<DiscoveredCI>, item: DiscoveredCI)
    ensures Promoted(items + [item], AbsorbRanked([], Ranked(Record(item, {|items|}), [|items|])).rank)
  {
    assert (items + [item])[|items|] == item && [|items|][1..] == [];
  }

  lemma OneMatchIsPromoted(items: seq<DiscoveredCI>, xs: seq<Ranked>, m: Ranked, item: DiscoveredCI, slug: Slug)
    requires AllPromoted(items, xs) && !item.HostLike() && forall x :: x in xs ==> Follows(items, x)
    requires m in Filter(xs, RankedMatch(item, slug))
    ensures Promoted(items + [item], AbsorbRanked([m], Ranked(Record(item, {|items|}), [|items|])).rank)
  {
    FilterMember(xs, RankedMatch(item, slug), m);
    JoinedIsPromoted(items, m, item);
  }

  lemma JoinedIsPromoted(items: seq<DiscoveredCI>, m: Ranked, item: DiscoveredCI)
    requires Follows(items, m) && Promoted(items, m.rank)
    ensures Promoted(items + [item], AbsorbRanked([m], Ranked(Record(item, {|items|}), [|items|])).rank)
  {
    var more, n := items + [item], |items|;
    assert [m][1..] == [];
    PromotedMore(items, more, m.rank);
    forall i | 0 <= i < |m.rank| ensures m.rank[i] < n {
      assert m.rank[i] in m.rank;
    }
    PromotedNext(more, m.rank, n);
  }

  lemma AddedIsMachine(items: seq<DiscoveredCI>, xs: seq<Ranked>, item: DiscoveredCI, slug: Slug)
    requires Partition(items, MapAll(xs, RECORD), slug) && item.Label() != "" && item.HostLike()
    ensures AbsorbRanked(Filter(xs, RankedMatch(item, slug)),
                         Ranked(Record(item, {|items|}), [|items|])).record.ci.HostLike()
  {
    var rs, n := MapAll(xs, RECORD), |items|;
    var matches := Filter(rs, MatchOf(item, slug));
    FilterMap(xs, RECORD, RankedMatch(item, slug), MatchOf(item, slug));
    AbsorbRankedIs(Filter(xs, RankedMatch(item, slug)), Ranked(Record(item, {n}), [n]));
    AbsorbedConserves(items, rs, item, slug);
    AbsorbBlocks(matches, Record(item, {n}), n);
    assert n in Absorb(matches, Record(item, {n})).block && (items + [item])[n] == item;
  }

  lemma {:induction false} FoldIsPromoted(items: seq<DiscoveredCI>, slug: Slug)
    requires Labelled(items)
    ensures AllPromoted(items, FoldRanked(items, slug))
  {
    if items != [] {
      var n := |items| - 1;
      var front, item := items[..n], items[n];
      var xs := FoldRanked(front, slug);
      assert items == front + [item];
      FoldIsPromoted(front, slug);
      RecordsFollowTheirRank(front, slug);
      FoldIsPartition(front, slug);
      forall x | x in Filter(xs, RankedOther(item, slug)) && !x.record.ci.HostLike() ensures Promoted(items, x.rank) {
        FilterMember(xs, RankedOther(item, slug), x);
        PromotedMore(front, items, x.rank);
      }
      if item.HostLike() { AddedIsMachine(front, xs, item, slug); } else { AddedIsPromoted(front, xs, item, slug); }
    }
  }

  // ----- When an observation prevails -----

  ghost predicate FirstObserved(items: seq<DiscoveredCI>, block: set<nat>, i: nat) {
    i in block && i < |items| && items[i].observed
    && forall j :: j in block && j < |items| && items[j].observed ==> i <= j
  }

  ghost predicate FirstWithKey(items: seq<DiscoveredCI>, block: set<nat>, key: string, i: nat) {
    i in block && Has(items, key)(i) && forall j :: j in block && Has(items, key)(j) ==> i <= j
  }

  /** The first observed sighting has the attribute, or the first that has it observed it. */
  ghost predicate Undisturbed(items: seq<DiscoveredCI>, block: set<nat>, key: string) {
    || (exists o: nat :: FirstObserved(items, block, o) && Has(items, key)(o))
    || (exists f: nat :: FirstWithKey(items, block, key, f) && items[f].observed)
  }

  lemma {:induction false} AscendingFirst(s: seq<nat>, p: nat -> bool)
    requires Ascending(s) && FirstThat(s, p).Some?
    ensures forall j :: j in s && p(j) ==> FirstThat(s, p).value <= j
  {
    assert s == [s[0]] + s[1..];
    if p(s[0]) {
      forall j | j in s ensures s[0] <= j {
        var k :| 0 <= k < |s| && s[k] == j;
      }
    } else {
      assert forall i :: 0 <= i < |s[1..]| ==> s[1..][i] == s[i + 1];
      AscendingFirst(s[1..], p);
    }
  }

  /** In a promoted rank the first with the attribute is the first observed or the first of all. */
  lemma SourceIs(items: seq<DiscoveredCI>, x: Ranked, key: string, i: nat)
    requires Follows(items, x) && Promoted(items, x.rank) && FirstThat(x.rank, Has(items, key)) == Some(i)
    ensures if items[x.rank[0]].observed && key in items[x.rank[0]].attributes
            then FirstObserved(items, x.record.block, i) && Has(items, key)(i)
            else FirstWithKey(items, x.record.block, key, i)
    ensures FirstObserved(items, x.record.block, x.rank[0]) || !x.record.ci.observed
  {
    var head, tail := x.rank[0], x.rank[1..];
    assert x.rank == [head] + tail;
    assert forall j :: j in x.rank ==> j == head || j in tail;
    FirstIsThere(x.rank, Has(items, key));
    if items[head].observed {
      forall j | j in x.record.block && items[j].observed ensures head <= j {
        var k :| 0 <= k < |x.rank| && x.rank[k] == j;
      }
      if key !in items[head].attributes { AscendingFirst(tail, Has(items, key)); }
    } else {
      AscendingFirst(x.rank, Has(items, key));
    }
  }

  /**
    For what one id alone brings together: an attribute comes from an observation
    exactly when the first observed sighting has it or the first that has it observed it.
  */
  lemma ObservationPrevailsExactly(items: seq<DiscoveredCI>, slug: Slug, x: Ranked, key: string)
    requires Labelled(items) && x in FoldRanked(items, slug)
    requires !x.record.ci.HostLike() && key in x.record.ci.attributes
    ensures var source := FirstThat(x.rank, Has(items, key));
            && source.Some? && source.value in x.record.block && source.value < |items|
            && key in items[source.value].attributes
            && x.record.ci.attributes[key] == items[source.value].attributes[key]
            && (items[source.value].observed <==> Undisturbed(items, x.record.block, key))
  {
    RecordsFollowTheirRank(items, slug);
    FoldIsPromoted(items, slug);
    assert AttributeFollows(items, x, key);
    var i := FirstThat(x.rank, Has(items, key)).value;
    FirstIsThere(x.rank, Has(items, key));
    SourceIs(items, x, key, i);
    UndisturbedExactly(items, x, key, i);
  }

  lemma UndisturbedExactly(items: seq<DiscoveredCI>, x: Ranked, key: string, i: nat)
    requires Follows(items, x) && Promoted(items, x.rank) && FirstThat(x.rank, Has(items, key)) == Some(i)
    requires i in x.record.block && i < |items|
    requires if items[x.rank[0]].observed && key in items[x.rank[0]].attributes
             then FirstObserved(items, x.record.block, i) && Has(items, key)(i)
             else FirstWithKey(items, x.record.block, key, i)
    requires FirstObserved(items, x.record.block, x.rank[0]) || !x.record.ci.observed
    ensures items[i].observed <==> Undisturbed(items, x.record.block, key)
  {
    var block := x.record.block;
    if Undisturbed(items, block, key) && FirstWithKey(items, block, key, i) {
      if o: nat :| FirstObserved(items, block, o) && Has(items, key)(o) {
        assert o == x.rank[0];
      } else {
        var f: nat :| FirstWithKey(items, block, key, f) && items[f].observed;
        assert f == i;
      }
    }
  }

  // ----- A declaration that prevails -----

  function Service(observed: bool, attributes: map<string, string>): DiscoveredCI {
    DiscoveredCI("service", "a", "", {"scan"}, observed, "", "", attributes, {}, {}, None, {}, "", "", "", "")
  }

  lemma TheFirstValueStays(d: DiscoveredCI, o: DiscoveredCI, p: DiscoveredCI)
    requires d == Service(false, map["port" := "1"]) && o == Service(true, map[])
    requires p == Service(true, map["port" := "2"])
    ensures MergedWith(d, o).Label() == "a" && MergedWith(d, o).ciType == "service"
    ensures var m := MergedWith(MergedWith(d, o), p);
            m.observed && "port" in m.attributes && m.attributes["port"] == "1"
  {
    assert d.Label() == "a" && o.Label() == "a";
    assert MergedWith(d, o).attributes == map["port" := "1"];
  }

  /** Declared, observed without the attribute, observed with another value: the declaration stays. */
  lemma DeclarationCanPrevail(d: DiscoveredCI, o: DiscoveredCI, p: DiscoveredCI, slug: Slug)
    requires d == Service(false, map["port" := "1"]) && o == Service(true, map[])
    requires p == Service(true, map["port" := "2"])
    ensures var rs := Fold([d, o, p], slug);
            |rs| == 1 && rs[0].ci.observed && "port" in rs[0].ci.attributes && rs[0].ci.attributes["port"] == "1"
  {
    TheFirstValueStays(d, o, p);
    assert d.Label() == "a" && o.Label() == "a" && p.Label() == "a";
    FoldTwo(d, o, slug);
    FoldThird(d, o, p, Record(MergedWith(d, o), {0} + {1}), slug);
  }
}
