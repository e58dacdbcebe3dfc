/**
  Folding sightings of configuration items into records (`discovery_scan.merge`,
  `DiscoveredCI.merged_with`). Aliases are taken as already normalised, and the
  slug that makes an item's id is a parameter.
*/
module DiscoveryMerge {
  import opened Ordering
  import opened Sequences
  import opened Wrappers

  type Slug = string -> string

  datatype DiscoveredCI = DiscoveredCI(
    ciType: string, name: string, canonicalName: string, sources: set<string>, observed: bool,
    node: string, description: string, attributes: map<string, string>, tags: set<string>,
    relationships: set<(string, string)>, declaredFlag: Option<bool>, aliases: set<string>,
    observedAt: string, scanId: string, authority: string, lifecycleScope: string)
  {
    /** `canonical_name or name`: the text an id is made from. */
    function Label(): string {
      if canonicalName != "" then canonicalName else name
    }

    predicate Declared() {
      if declaredFlag.Some? then declaredFlag.value else !observed
    }

    /** The names by which this item may be recognised. */
    function IdentityAliases(): set<string> {
      ({name, canonicalName} + aliases) - {""}
    }

    predicate HostLike() {
      ciType == "host" || ciType == "device"
    }
  }

  /** `min(filter(None, (a, b)))`; the original raises when both are empty. */
  function LeastNamed(a: string, b: string): string {
    if b == "" || (a != "" && StrLeq(a, b)) then a else b
  }

  function Greatest(a: string, b: string): string {
    if StrLeq(a, b) then b else a
  }

  /** `a.merged_with(b)`. Observations win over declarations. */
  function MergedWith(a: DiscoveredCI, b: DiscoveredCI): DiscoveredCI {
    var primary, secondary := if b.observed && !a.observed then b else a, if b.observed && !a.observed then a else b;
    var canonical := if a.Declared() && !b.Declared() then a.Label()
                     else if b.Declared() && !a.Declared() then b.Label()
                     else LeastNamed(a.Label(), b.Label());
    primary.(sources := a.sources + b.sources,
             observed := a.observed || b.observed,
             declaredFlag := Some(a.Declared() || b.Declared()),
             node := Or(primary.node, secondary.node),
             description := Or(primary.description, secondary.description),
             attributes := secondary.attributes + primary.attributes,
             tags := a.tags + b.tags,
             relationships := a.relationships + b.relationships,
             canonicalName := canonical,
             aliases := a.IdentityAliases() + b.IdentityAliases(),
             observedAt := Greatest(a.observedAt, b.observedAt),
             scanId := Or(primary.scanId, secondary.scanId),
             authority := if a.observed || b.observed then "observed" else "declared",
             lifecycleScope := Or(primary.lifecycleScope, secondary.lifecycleScope))
  }

  predicate Overlap(a: set<string>, b: set<string>) {
    exists x :: x in a && x in b
  }

  /** Two sightings of one item: same type, and same id or, for machines, a shared alias. */
  predicate Matches(a: DiscoveredCI, b: DiscoveredCI, slug: Slug) {
    && a.ciType == b.ciType
    && (slug(a.Label()) == slug(b.Label())
        || (b.HostLike() && Overlap(a.IdentityAliases(), b.IdentityAliases())))
  }

  // ----- The fold, with the sightings each record stands for -----

  datatype Record = Record(ci: DiscoveredCI, block: set<nat>)

  function MatchOf(item: DiscoveredCI, slug: Slug): Record -> bool {
    (r: Record) => Matches(r.ci, item, slug)
  }

  function OtherThan(item: DiscoveredCI, slug: Slug): Record -> bool {
    (r: Record) => !Matches(r.ci, item, slug)
  }

  /** Folds matched records into `merged`, in order. */
  function Absorb(matches: seq<Record>, merged: Record): Record
    decreases |matches|
  {
    if matches == [] then merged
    else Absorb(matches[1..], Record(MergedWith(matches[0].ci, merged.ci), matches[0].block + merged.block))
  }

  function AddSighting(folded: seq<Record>, item: DiscoveredCI, n: nat, slug: Slug): seq<Record> {
    var matches := Filter(folded, MatchOf(item, slug));
    if matches == [] then folded + [Record(item, {n})]
    else Filter(folded, OtherThan(item, slug)) + [Absorb(matches, Record(item, {n}))]
  }

  function Fold(items: seq<DiscoveredCI>, slug: Slug): seq<Record> {
    if items == [] then []
    else AddSighting(Fold(items[..|items| - 1], slug), items[|items| - 1], |items| - 1, slug)
  }

  /** Every sighting must name itself: `min()` of two empty names is an error. */
  predicate Labelled(items: seq<DiscoveredCI>) {
    forall i :: 0 <= i < |items| ==> items[i].Label() != ""
  }

  // ----- What a record conserves -----

  function AliasesOf(items: seq<DiscoveredCI>, block: set<nat>): set<string> {
    set i, x | i in block && i < |items| && x in items[i].IdentityAliases() :: x
  }

  function TagsOf(items: seq<DiscoveredCI>, block: set<nat>): set<string> {
    set i, x | i in block && i < |items| && x in items[i].tags :: x
  }

  function SourcesOf(items: seq<DiscoveredCI>, block: set<nat>): set<string> {
    set i, x | i in block && i < |items| && x in items[i].sources :: x
  }

  function RelationshipsOf(items: seq<DiscoveredCI>, block: set<nat>): set<(string, string)> {
    set i, x | i in block && i < |items| && x in items[i].relationships :: x
  }

  function KeysOf(items: seq<DiscoveredCI>, block: set<nat>): set<string> {
    set i, x | i in block && i < |items| && x in items[i].attributes :: x
  }

  predicate AnyObserved(items: seq<DiscoveredCI>, block: set<nat>) {
    exists i :: i in block && i < |items| && items[i].observed
  }

  predicate AnyDeclared(items: seq<DiscoveredCI>, block: set<nat>) {
    exists i :: i in block && i < |items| && items[i].Declared()
  }

  /** A sighting that may give the record its label: a declared one, if there is any. */
  predicate Eligible(items: seq<DiscoveredCI>, block: set<nat>, i: nat) {
    i in block && i < |items| && (AnyDeclared(items, block) ==> items[i].Declared())
  }

  /** `named` is the first label, in code-point order, among the eligible sightings. */
  ghost predicate Prevails(items: seq<DiscoveredCI>, block: set<nat>, named: string) {
    && (exists i: nat :: Eligible(items, block, i) && items[i].Label() == named)
    && (forall i: nat :: Eligible(items, block, i) ==> StrLeq(named, items[i].Label()))
  }

  /** The sightings of a block share the record's type, and one of them named it. */
  ghost predicate OneOfAKind(items: seq<DiscoveredCI>, r: Record, slug: Slug) {
    && (forall i :: i in r.block ==> i < |items| && items[i].ciType == r.ci.ciType)
    && Prevails(items, r.block, r.ci.Label())
    && (!r.ci.HostLike() ==> forall i :: i in r.block && i < |items| ==> slug(items[i].Label()) == slug(r.ci.Label()))
  }

  /** A record says of its block exactly what the sightings in it said. */
  ghost predicate Conserves(items: seq<DiscoveredCI>, r: Record, slug: Slug) {
    && r.ci.Label() != "" && OneOfAKind(items, r, slug)
    && r.ci.IdentityAliases() == AliasesOf(items, r.block)
    && r.ci.tags == TagsOf(items, r.block)
    && r.ci.sources == SourcesOf(items, r.block)
    && r.ci.relationships == RelationshipsOf(items, r.block)
    && r.ci.attributes.Keys == KeysOf(items, r.block)
    && r.ci.observed == AnyObserved(items, r.block)
    && r.ci.Declared() == AnyDeclared(items, r.block)
  }

  lemma MergedAliases(a: DiscoveredCI, b: DiscoveredCI)
    requires a.Label() != "" && b.Label() != ""
    ensures MergedWith(a, b).IdentityAliases() == a.IdentityAliases() + b.IdentityAliases()
    ensures MergedWith(a, b).Label() == a.Label() || MergedWith(a, b).Label() == b.Label()
    ensures MergedWith(a, b).Label() != ""
    ensures MergedWith(a, b).Declared() == (a.Declared() || b.Declared())
  {
  }

  /** Facts about a block are facts about its parts. */
  lemma BlocksUnite(items: seq<DiscoveredCI>, a: set<nat>, b: set<nat>)
    ensures AliasesOf(items, a + b) == AliasesOf(items, a) + AliasesOf(items, b)
    ensures TagsOf(items, a + b) == TagsOf(items, a) + TagsOf(items, b)
    ensures SourcesOf(items, a + b) == SourcesOf(items, a) + SourcesOf(items, b)
    ensures RelationshipsOf(items, a + b) == RelationshipsOf(items, a) + RelationshipsOf(items, b)
    ensures KeysOf(items, a + b) == KeysOf(items, a) + KeysOf(items, b)
    ensures AnyObserved(items, a + b) == (AnyObserved(items, a) || AnyObserved(items, b))
    ensures AnyDeclared(items, a + b) == (AnyDeclared(items, a) || AnyDeclared(items, b))
  {
  }

  /** A record goes on conserving its block as later sightings arrive. */
  lemma ConservesMore(items: seq<DiscoveredCI>, more: seq<DiscoveredCI>, r: Record, slug: Slug)
    requires Conserves(items, r, slug) && items <= more
    ensures Conserves(more, r, slug)
  {
    assert AliasesOf(items, r.block) == AliasesOf(more, r.block);
    assert TagsOf(items, r.block) == TagsOf(more, r.block);
    assert SourcesOf(items, r.block) == SourcesOf(more, r.block);
    assert RelationshipsOf(items, r.block) == RelationshipsOf(more, r.block);
    assert KeysOf(items, r.block) == KeysOf(more, r.block);
    assert AnyObserved(items, r.block) == AnyObserved(more, r.block);
    assert AnyDeclared(items, r.block) == AnyDeclared(more, r.block);
    var i: nat :| Eligible(items, r.block, i) && items[i].Label() == r.ci.Label();
    assert Eligible(more, r.block, i);
    assert forall k: nat :: Eligible(more, r.block, k) ==> Eligible(items, r.block, k);
  }

  lemma ConservesOne(items: seq<DiscoveredCI>, n: nat, slug: Slug)
    requires n < |items| && items[n].Label() != ""
    ensures Conserves(items, Record(items[n], {n}), slug)
  {
    assert AliasesOf(items, {n}) == items[n].IdentityAliases();
    assert TagsOf(items, {n}) == items[n].tags;
    assert SourcesOf(items, {n}) == items[n].sources;
    assert RelationshipsOf(items, {n}) == items[n].relationships;
    assert KeysOf(items, {n}) == items[n].attributes.Keys;
    assert AnyObserved(items, {n}) == items[n].observed;
    assert AnyDeclared(items, {n}) == items[n].Declared();
    assert Eligible(items, {n}, n);
    StrTotal(items[n].Label(), items[n].Label());
  }

  /** A block with no declared sighting yields to one with some. */
  lemma DeclaredPrevails(items: seq<DiscoveredCI>, a: set<nat>, b: set<nat>, named: string)
    requires Prevails(items, a, named) && AnyDeclared(items, a) && !AnyDeclared(items, b)
    ensures Prevails(items, a + b, named) && Prevails(items, b + a, named)
  {
    BlocksUnite(items, a, b);
    assert a + b == b + a;
    forall i: nat ensures Eligible(items, a, i) == Eligible(items, a + b, i) {
    }
  }

  lemma LeastPrevails(items: seq<DiscoveredCI>, a: set<nat>, b: set<nat>, first: string, second: string)
    requires Prevails(items, a, first) && Prevails(items, b, second)
    requires AnyDeclared(items, a) == AnyDeclared(items, b) && StrLeq(first, second)
    ensures Prevails(items, a + b, first) && Prevails(items, b + a, first)
  {
    BlocksUnite(items, a, b);
    assert a + b == b + a;
    forall i: nat ensures Eligible(items, a + b, i) == (Eligible(items, a, i) || Eligible(items, b, i)) {
    }
    forall i: nat | Eligible(items, b, i) ensures StrLeq(first, items[i].Label()) {
      StrTransitive(first, second, items[i].Label());
    }
  }

  lemma PrevailsMerged(items: seq<DiscoveredCI>, a: Record, b: Record)
    requires Prevails(items, a.block, a.ci.Label()) && Prevails(items, b.block, b.ci.Label())
    requires a.ci.Declared() == AnyDeclared(items, a.block) && b.ci.Declared() == AnyDeclared(items, b.block)
    requires a.ci.Label() != "" && b.ci.Label() != ""
    ensures Prevails(items, a.block + b.block, MergedWith(a.ci, b.ci).Label())
  {
    StrTotal(a.ci.Label(), b.ci.Label());
    if a.ci.Declared() && !b.ci.Declared() {
      DeclaredPrevails(items, a.block, b.block, a.ci.Label());
    } else if b.ci.Declared() && !a.ci.Declared() {
      DeclaredPrevails(items, b.block, a.block, b.ci.Label());
    } else if StrLeq(a.ci.Label(), b.ci.Label()) {
      LeastPrevails(items, a.block, b.block, a.ci.Label(), b.ci.Label());
    } else {
      LeastPrevails(items, b.block, a.block, b.ci.Label(), a.ci.Label());
    }
  }

  lemma OneOfAKindMerged(items: seq<DiscoveredCI>, a: Record, b: Record, slug: Slug)
    requires OneOfAKind(items, a, slug) && OneOfAKind(items, b, slug) && a.ci.ciType == b.ci.ciType
    requires a.ci.Declared() == AnyDeclared(items, a.block) && b.ci.Declared() == AnyDeclared(items, b.block)
    requires a.ci.Label() != "" && b.ci.Label() != ""
    requires !a.ci.HostLike() ==> slug(a.ci.Label()) == slug(b.ci.Label())
    ensures OneOfAKind(items, Record(MergedWith(a.ci, b.ci), a.block + b.block), slug)
  {
    MergedAliases(a.ci, b.ci);
    PrevailsMerged(items, a, b);
  }

  lemma ConservesMerged(items: seq<DiscoveredCI>, a: Record, b: Record, slug: Slug)
    requires Conserves(items, a, slug) && Conserves(items, b, slug) && a.ci.ciType == b.ci.ciType
    requires !a.ci.HostLike() ==> slug(a.ci.Label()) == slug(b.ci.Label())
    ensures Conserves(items, Record(MergedWith(a.ci, b.ci), a.block + b.block), slug)
  {
    OneOfAKindMerged(items, a, b, slug);
    MergedAliases(a.ci, b.ci);
    MergedUnites(a.ci, b.ci);
    BlocksUnite(items, a.block, b.block);
  }

  lemma MergedUnites(a: DiscoveredCI, b: DiscoveredCI)
    ensures var m := MergedWith(a, b);
            && m.tags == a.tags + b.tags && m.sources == a.sources + b.sources
            && m.relationships == a.relationships + b.relationships && m.observed == (a.observed || b.observed)
            && m.attributes.Keys == a.attributes.Keys + b.attributes.Keys
  {
  }

  // ----- Absorbing matches -----

  /** Same machine type, or same id: what a match of equal types gives. */
  predicate Mergeable(a: DiscoveredCI, b: DiscoveredCI, slug: Slug) {
    a.ciType == b.ciType && (!a.HostLike() ==> slug(a.Label()) == slug(b.Label()))
  }

  lemma {:induction false} AbsorbConserves(items: seq<DiscoveredCI>, matches: seq<Record>, merged: Record, slug: Slug)
    requires Conserves(items, merged, slug)
    requires forall k :: 0 <= k < |matches| ==>
               Conserves(items, matches[k], slug) && Mergeable(matches[k].ci, merged.ci, slug)
    ensures Conserves(items, Absorb(matches, merged), slug)
    ensures Absorb(matches, merged).ci.ciType == merged.ci.ciType
    decreases |matches|
  {
    if matches != [] {
      var next := Record(MergedWith(matches[0].ci, merged.ci), matches[0].block + merged.block);
      ConservesMerged(items, matches[0], merged, slug);
      MergedAliases(matches[0].ci, merged.ci);
      AbsorbConserves(items, matches[1..], next, slug);
    }
  }

  lemma {:induction false} AbsorbBlocks(matches: seq<Record>, merged: Record, i: nat)
    ensures i in Absorb(matches, merged).block
            <==> i in merged.block || exists k :: 0 <= k < |matches| && i in matches[k].block
    decreases |matches|
  {
    if matches != [] {
      var rest := matches[1..];
      AbsorbBlocks(rest, Record(MergedWith(matches[0].ci, merged.ci), matches[0].block + merged.block), i);
      if k :| 0 <= k < |matches| && i in matches[k].block {
        assert k > 0 ==> rest[k - 1] == matches[k];
      }
      if k :| 0 <= k < |rest| && i in rest[k].block {
        assert matches[k + 1] == rest[k];
      }
    }
  }

  /** What matches neither part matches not the whole. */
  lemma MergedStaysApart(e: DiscoveredCI, a: DiscoveredCI, b: DiscoveredCI, slug: Slug)
    requires a.Label() != "" && b.Label() != "" && a.ciType == b.ciType
    requires !Matches(e, a, slug) && !Matches(e, b, slug)
    ensures !Matches(e, MergedWith(a, b), slug)
  {
    MergedAliases(a, b);
  }

  lemma {:induction false} AbsorbedStaysApart(e: DiscoveredCI, matches: seq<Record>, merged: Record, slug: Slug)
    requires merged.ci.Label() != "" && !Matches(e, merged.ci, slug)
    requires forall k :: 0 <= k < |matches| ==>
               matches[k].ci.Label() != "" && matches[k].ci.ciType == merged.ci.ciType
               && !Matches(e, matches[k].ci, slug)
    ensures !Matches(e, Absorb(matches, merged).ci, slug)
    decreases |matches|
  {
    if matches != [] {
      MergedStaysApart(e, matches[0].ci, merged.ci, slug);
      MergedAliases(matches[0].ci, merged.ci);
      AbsorbedStaysApart(e, matches[1..],
                         Record(MergedWith(matches[0].ci, merged.ci), matches[0].block + merged.block), slug);
    }
  }

  // ----- The records partition the sightings and stay apart -----

  predicate Apart(r: Record, s: Record, slug: Slug) {
    r.block !! s.block && !Matches(r.ci, s.ci, slug)
  }

  ghost predicate Separated(rs: seq<Record>, slug: Slug) {
    forall k, l :: 0 <= k < l < |rs| ==> Apart(rs[k], rs[l], slug)
  }

  predicate InSome(rs: seq<Record>, i: nat) {
    exists k :: 0 <= k < |rs| && i in rs[k].block
  }

  /** Every sighting is in a record, records conserve, and no two records match. */
  ghost predicate Partition(items: seq<DiscoveredCI>, rs: seq<Record>, slug: Slug) {
    && (forall k :: 0 <= k < |rs| ==> Conserves(items, rs[k], slug))
    && Separated(rs, slug)
    && (forall i :: 0 <= i < |items| ==> InSome(rs, i))
  }

  lemma {:induction false} FilterSeparated(rs: seq<Record>, keep: Record -> bool, slug: Slug)
    requires Separated(rs, slug)
    ensures Separated(Filter(rs, keep), slug)
  {
    if rs != [] {
      var rest := rs[1..];
      assert forall k :: 0 <= k < |rest| ==> rest[k] == rs[k + 1];
      FilterSeparated(rest, keep, slug);
      var kept := Filter(rest, keep);
      if keep(rs[0]) {
        forall l | 0 <= l < |kept| ensures Apart(rs[0], kept[l], slug) {
          FilterMember(rest, keep, kept[l]);
          var k :| 0 <= k < |rest| && rest[k] == kept[l];
          assert Apart(rs[0], rs[k + 1], slug);
        }
        assert Filter(rs, keep) == [rs[0]] + kept;
      } else {
        assert Filter(rs, keep) == kept;
      }
    }
  }

  /** A kept record and a matched one are different records, so apart. */
  lemma ApartFromMatches(rs: seq<Record>, item: DiscoveredCI, slug: Slug, r: Record, m: Record)
    requires Separated(rs, slug)
    requires r in rs && m in rs && !Matches(r.ci, item, slug) && Matches(m.ci, item, slug)
    ensures r.block !! m.block && !Matches(r.ci, m.ci, slug)
  {
    var k :| 0 <= k < |rs| && rs[k] == r;
    var l :| 0 <= l < |rs| && rs[l] == m;
    if k < l {
      assert Apart(rs[k], rs[l], slug);
    } else {
      assert Apart(rs[l], rs[k], slug);
    }
  }

  lemma MatchesMerge(r: DiscoveredCI, item: DiscoveredCI, slug: Slug)
    requires Matches(r, item, slug)
    ensures Mergeable(r, item, slug)
  {
  }

  /** What the new record is when a sighting matches `matches`. */
  lemma AbsorbedApart(items: seq<DiscoveredCI>, rs: seq<Record>, item: DiscoveredCI, slug: Slug, r: Record)
    requires Partition(items, rs, slug) && item.Label() != ""
    requires r in rs && !Matches(r.ci, item, slug)
    ensures Apart(r, Absorb(Filter(rs, MatchOf(item, slug)), Record(item, {|items|})), slug)
  {
    var n := |items|;
    var matches := Filter(rs, MatchOf(item, slug));
    forall k | 0 <= k < |matches|
      ensures matches[k] in rs && Matches(matches[k].ci, item, slug) && Conserves(items, matches[k], slug)
      ensures r.block !! matches[k].block && !Matches(r.ci, matches[k].ci, slug)
    {
      FilterMember(rs, MatchOf(item, slug), matches[k]);
      ApartFromMatches(rs, item, slug, r, matches[k]);
    }
    AbsorbedStaysApart(r.ci, matches, Record(item, {n}), slug);
    assert Conserves(items, r, slug);
    forall i | i in r.block ensures i !in Absorb(matches, Record(item, {n})).block {
      AbsorbBlocks(matches, Record(item, {n}), i);
    }
  }

  lemma AbsorbedConserves(items: seq<DiscoveredCI>, rs: seq<Record>, item: DiscoveredCI, slug: Slug)
    requires Partition(items, rs, slug) && item.Label() != ""
    ensures Conserves(items + [item], Absorb(Filter(rs, MatchOf(item, slug)), Record(item, {|items|})), slug)
  {
    var more := items + [item];
    var matches := Filter(rs, MatchOf(item, slug));
    ConservesOne(more, |items|, slug);
    forall k | 0 <= k < |matches|
      ensures Conserves(more, matches[k], slug) && Mergeable(matches[k].ci, item, slug)
    {
      FilterMember(rs, MatchOf(item, slug), matches[k]);
      ConservesMore(items, more, matches[k], slug);
      MatchesMerge(matches[k].ci, item, slug);
    }
    AbsorbConserves(more, matches, Record(item, {|items|}), slug);
  }

  /** A record of the old list is kept as it is or is part of the new one. */
  lemma AddedInSome(rs: seq<Record>, item: DiscoveredCI, n: nat, slug: Slug, i: nat)
    requires i == n || InSome(rs, i)
    ensures InSome(AddSighting(rs, item, n, slug), i)
  {
    var matches, others := Filter(rs, MatchOf(item, slug)), Filter(rs, OtherThan(item, slug));
    var merged := Absorb(matches, Record(item, {n}));
    AddedIsSnoc(rs, item, n, slug);
    AbsorbBlocks(matches, Record(item, {n}), i);
    if i != n && i !in merged.block {
      var k :| 0 <= k < |rs| && i in rs[k].block;
      FilterMember(rs, MatchOf(item, slug), rs[k]);
      FilterMember(rs, OtherThan(item, slug), rs[k]);
      assert rs[k] in others;
      var l :| 0 <= l < |others| && others[l] == rs[k];
      assert (others + [merged])[l] == rs[k];
    } else {
      assert (others + [merged])[|others|] == merged;
    }
  }

  lemma SeparatedSnoc(rs: seq<Record>, r: Record, slug: Slug)
    requires Separated(rs, slug) && forall k :: 0 <= k < |rs| ==> Apart(rs[k], r, slug)
    ensures Separated(rs + [r], slug)
  {
  }

  lemma AddKeepsPartition(items: seq<DiscoveredCI>, rs: seq<Record>, item: DiscoveredCI, slug: Slug)
    requires Partition(items, rs, slug) && item.Label() != ""
    ensures Partition(items + [item], AddSighting(rs, item, |items|, slug), slug)
  {
    var more, n := items + [item], |items|;
    var others := Filter(rs, OtherThan(item, slug));
    var merged := Absorb(Filter(rs, MatchOf(item, slug)), Record(item, {n}));
    AddedIsSnoc(rs, item, n, slug);
    AbsorbedConserves(items, rs, item, slug);
    FilterSeparated(rs, OtherThan(item, slug), slug);
    forall k | 0 <= k < |others| ensures Conserves(more, others[k], slug) && Apart(others[k], merged, slug) {
      FilterMember(rs, OtherThan(item, slug), others[k]);
      ConservesMore(items, more, others[k], slug);
      AbsorbedApart(items, rs, item, slug, others[k]);
    }
    SeparatedSnoc(others, merged, slug);
    forall i | 0 <= i < |more| ensures InSome(others + [merged], i) {
      AddedInSome(rs, item, n, slug, i);
    }
  }

  /** With no matches every record is another, so one form covers both branches. */
  lemma AddedIsSnoc(rs: seq<Record>, item: DiscoveredCI, n: nat, slug: Slug)
    ensures AddSighting(rs, item, n, slug)
            == Filter(rs, OtherThan(item, slug)) + [Absorb(Filter(rs, MatchOf(item, slug)), Record(item, {n}))]
  {
    if Filter(rs, MatchOf(item, slug)) == [] { NoMatchesMeansOthers(rs, item, slug); }
  }

  lemma {:induction false} NoMatchesMeansOthers(rs: seq<Record>, item: DiscoveredCI, slug: Slug)
    requires Filter(rs, MatchOf(item, slug)) == []
    ensures Filter(rs, OtherThan(item, slug)) == rs
  {
    if rs != [] { NoMatchesMeansOthers(rs[1..], item, slug); }
  }

  /** The records partition the sightings, conserve what was seen, and share no identity. */
  lemma {:induction false} FoldIsPartition(items: seq<DiscoveredCI>, slug: Slug)
    requires Labelled(items)
    ensures Partition(items, Fold(items, slug), slug)
  {
    if items != [] {
      var front := items[..|items| - 1];
      assert items == front + [items[|items| - 1]];
      FoldIsPartition(front, slug);
      AddKeepsPartition(front, Fold(front, slug), items[|items| - 1], slug);
    }
  }

  // ----- Records are chains of overlapping sightings -----

  ghost predicate IsChain(items: seq<DiscoveredCI>, p: seq<nat>, slug: Slug) {
    && |p| > 0 && (forall k :: 0 <= k < |p| ==> p[k] < |items|)
    && (forall k :: 0 <= k < |p| - 1 ==> Matches(items[p[k]], items[p[k + 1]], slug))
  }

  ghost predicate ChainBetween(items: seq<DiscoveredCI>, i: nat, j: nat, p: seq<nat>, slug: Slug) {
    IsChain(items, p, slug) && p[0] == i && p[|p| - 1] == j
  }

  /** Two sightings are joined by a chain in which each matches the next. */
  ghost predicate Connected(items: seq<DiscoveredCI>, i: nat, j: nat, slug: Slug) {
    exists p :: ChainBetween(items, i, j, p, slug)
  }

  ghost predicate Together(rs: seq<Record>, i: nat, j: nat) {
    exists k :: 0 <= k < |rs| && i in rs[k].block && j in rs[k].block
  }

  lemma ConnectedOne(items: seq<DiscoveredCI>, i: nat, j: nat, slug: Slug)
    requires i < |items| && j < |items| && Matches(items[i], items[j], slug)
    ensures Connected(items, i, j, slug) && Connected(items, j, i, slug)
    ensures Connected(items, i, i, slug)
  {
    assert ChainBetween(items, i, j, [i, j], slug);
    assert ChainBetween(items, j, i, [j, i], slug);
    assert ChainBetween(items, i, i, [i], slug);
  }

  lemma ConnectedJoin(items: seq<DiscoveredCI>, i: nat, j: nat, k: nat, slug: Slug)
    requires Connected(items, i, j, slug) && Connected(items, j, k, slug)
    ensures Connected(items, i, k, slug)
  {
    var p :| ChainBetween(items, i, j, p, slug);
    var q :| ChainBetween(items, j, k, q, slug);
    var r := p + q[1..];
    forall m | 0 <= m < |r| - 1 ensures Matches(items[r[m]], items[r[m + 1]], slug) {
      if m >= |p| - 1 {
        assert r[m] == q[m - |p| + 1] && r[m + 1] == q[m - |p| + 2];
      }
    }
    assert ChainBetween(items, i, k, r, slug);
  }

  ghost predicate Chained(items: seq<DiscoveredCI>, block: set<nat>, slug: Slug) {
    forall i, j :: i in block && j in block ==> Connected(items, i, j, slug)
  }

  lemma ChainedMore(items: seq<DiscoveredCI>, more: seq<DiscoveredCI>, block: set<nat>, slug: Slug)
    requires items <= more && Chained(items, block, slug)
    ensures Chained(more, block, slug)
  {
    forall i, j | i in block && j in block ensures Connected(more, i, j, slug) {
      var p :| ChainBetween(items, i, j, p, slug);
      assert ChainBetween(more, i, j, p, slug);
    }
  }

  lemma ChainedUnion(items: seq<DiscoveredCI>, a: set<nat>, b: set<nat>, i: nat, j: nat, slug: Slug)
    requires Chained(items, a, slug) && Chained(items, b, slug)
    requires i in a && j in b && i < |items| && j < |items| && Matches(items[i], items[j], slug)
    ensures Chained(items, a + b, slug)
  {
    ConnectedOne(items, i, j, slug);
    forall k, l | k in a + b && l in a + b ensures Connected(items, k, l, slug) {
      if k in a && l in b {
        ConnectedJoin(items, k, i, j, slug);
        ConnectedJoin(items, k, j, l, slug);
      } else if k in b && l in a {
        ConnectedJoin(items, k, j, i, slug);
        ConnectedJoin(items, k, i, l, slug);
      }
    }
  }

  ghost predicate Touches(items: seq<DiscoveredCI>, block: set<nat>, item: DiscoveredCI, slug: Slug) {
    exists i :: i in block && i < |items| && Matches(items[i], item, slug)
  }

  /** What matches a record matches a sighting in it. */
  lemma MatchTouches(items: seq<DiscoveredCI>, r: Record, item: DiscoveredCI, slug: Slug)
    requires Conserves(items, r, slug) && Matches(r.ci, item, slug)
    ensures Touches(items, r.block, item, slug)
  {
    if slug(r.ci.Label()) == slug(item.Label()) {
      var i: nat :| Eligible(items, r.block, i) && items[i].Label() == r.ci.Label();
      assert Matches(items[i], item, slug);
    } else {
      var x :| x in r.ci.IdentityAliases() && x in item.IdentityAliases();
      assert x in AliasesOf(items, r.block);
      var i :| i in r.block && i < |items| && x in items[i].IdentityAliases();
      assert Matches(items[i], item, slug);
    }
  }

  lemma {:induction false} AbsorbChained(
    items: seq<DiscoveredCI>, matches: seq<Record>, merged: Record, n: nat, slug: Slug)
    requires n < |items| && n in merged.block && Chained(items, merged.block, slug)
    requires forall k :: 0 <= k < |matches| ==>
               Chained(items, matches[k].block, slug) && Touches(items, matches[k].block, items[n], slug)
    ensures Chained(items, Absorb(matches, merged).block, slug)
    decreases |matches|
  {
    if matches != [] {
      var i :| i in matches[0].block && i < |items| && Matches(items[i], items[n], slug);
      ChainedUnion(items, matches[0].block, merged.block, i, n, slug);
      AbsorbChained(items, matches[1..],
                    Record(MergedWith(matches[0].ci, merged.ci), matches[0].block + merged.block), n, slug);
    }
  }

  /** The fold joins only what a chain of matches joins. */
  lemma {:induction false} FoldIsChained(items: seq<DiscoveredCI>, slug: Slug)
    requires Labelled(items)
    ensures forall r :: r in Fold(items, slug) ==> Chained(items, r.block, slug)
  {
    if items != [] {
      var front, n := items[..|items| - 1], |items| - 1;
      var item, rs := items[n], Fold(front, slug);
      FoldIsPartition(front, slug);
      FoldIsChained(front, slug);
      AddedIsSnoc(rs, item, n, slug);
      forall r | r in Filter(rs, OtherThan(item, slug)) ensures Chained(items, r.block, slug) {
        FilterMember(rs, OtherThan(item, slug), r);
        ChainedMore(front, items, r.block, slug);
      }
      AddedIsChained(items, rs, slug);
    }
  }

  lemma AddedIsChained(items: seq<DiscoveredCI>, rs: seq<Record>, slug: Slug)
    requires items != [] && Partition(items[..|items| - 1], rs, slug)
    requires forall r :: r in rs ==> Chained(items[..|items| - 1], r.block, slug)
    ensures var n := |items| - 1;
            Chained(items, Absorb(Filter(rs, MatchOf(items[n], slug)), Record(items[n], {n})).block, slug)
  {
    var front, n := items[..|items| - 1], |items| - 1;
    var matches := Filter(rs, MatchOf(items[n], slug));
    assert front <= items;
    forall k | 0 <= k < |matches|
      ensures Chained(items, matches[k].block, slug) && Touches(items, matches[k].block, items[n], slug)
    {
      FilterMember(rs, MatchOf(items[n], slug), matches[k]);
      ChainedMore(front, items, matches[k].block, slug);
      MatchTouches(front, matches[k], items[n], slug);
      var i :| i in matches[k].block && i < |front| && Matches(front[i], items[n], slug);
      assert items[i] == front[i];
    }
    ConnectedOne(items, n, n, slug);
    AbsorbChained(items, matches, Record(items[n], {n}), n, slug);
  }

  // ----- With aligned ids the records are exactly the connected components -----

  /** Equal ids imply a shared alias, among machines. */
  ghost predicate Aligned(items: seq<DiscoveredCI>, slug: Slug) {
    forall i, j :: 0 <= i < |items| && 0 <= j < |items| && items[i].HostLike() && Matches(items[i], items[j], slug)
              ==> Overlap(items[i].IdentityAliases(), items[j].IdentityAliases())
  }

  lemma MatchingRecords(items: seq<DiscoveredCI>, r: Record, s: Record, i: nat, j: nat, slug: Slug)
    requires Conserves(items, r, slug) && Conserves(items, s, slug) && Aligned(items, slug)
    requires i in r.block && j in s.block && i < |items| && j < |items| && Matches(items[i], items[j], slug)
    ensures Matches(r.ci, s.ci, slug)
  {
    if items[i].HostLike() {
      var x :| x in items[i].IdentityAliases() && x in items[j].IdentityAliases();
      assert x in AliasesOf(items, r.block) && x in AliasesOf(items, s.block);
    }
  }

  lemma MatchesTogether(items: seq<DiscoveredCI>, rs: seq<Record>, i: nat, j: nat, slug: Slug)
    requires Partition(items, rs, slug) && Aligned(items, slug)
    requires i < |items| && j < |items| && Matches(items[i], items[j], slug)
    ensures Together(rs, i, j)
  {
    assert InSome(rs, i) && InSome(rs, j);
    var k: nat :| k < |rs| && i in rs[k].block;
    var l: nat :| l < |rs| && j in rs[l].block;
    MatchingRecords(items, rs[k], rs[l], i, j, slug);
    if k != l { ApartBothWays(rs, k, l, slug); }
  }

  lemma ApartBothWays(rs: seq<Record>, k: nat, l: nat, slug: Slug)
    requires Separated(rs, slug) && k < |rs| && l < |rs| && k != l
    ensures rs[k].block !! rs[l].block && !Matches(rs[k].ci, rs[l].ci, slug)
  {
    if k < l { assert Apart(rs[k], rs[l], slug); } else { assert Apart(rs[l], rs[k], slug); }
  }

  lemma ChainTail(items: seq<DiscoveredCI>, p: seq<nat>, slug: Slug)
    requires IsChain(items, p, slug) && |p| > 1
    ensures IsChain(items, p[1..], slug) && Matches(items[p[0]], items[p[1]], slug)
  {
    assert Matches(items[p[0]], items[p[0 + 1]], slug);
    var q := p[1..];
    forall k | 0 <= k < |q| - 1 ensures Matches(items[q[k]], items[q[k + 1]], slug) {
      assert q[k] == p[k + 1] && q[k + 1] == p[(k + 1) + 1];
    }
  }

  lemma TogetherJoin(rs: seq<Record>, i: nat, j: nat, k: nat, slug: Slug)
    requires Separated(rs, slug) && Together(rs, i, j) && Together(rs, j, k)
    ensures Together(rs, i, k)
  {
    var a: nat :| a < |rs| && i in rs[a].block && j in rs[a].block;
    var b: nat :| b < |rs| && j in rs[b].block && k in rs[b].block;
    if a != b { ApartBothWays(rs, a, b, slug); }
  }

  lemma {:induction false} ChainTogether(items: seq<DiscoveredCI>, rs: seq<Record>, p: seq<nat>, slug: Slug)
    requires Partition(items, rs, slug) && Aligned(items, slug) && IsChain(items, p, slug)
    ensures Together(rs, p[0], p[|p| - 1])
  {
    if |p| == 1 {
      assert InSome(rs, p[0]);
    } else {
      ChainTail(items, p, slug);
      ChainTogether(items, rs, p[1..], slug);
      MatchesTogether(items, rs, p[0], p[1], slug);
      TogetherJoin(rs, p[0], p[1], p[|p| - 1], slug);
    }
  }

  /** Two sightings share a record exactly when a chain of matches joins them. */
  lemma RecordsAreComponents(items: seq<DiscoveredCI>, slug: Slug, i: nat, j: nat)
    requires Labelled(items)
    ensures Together(Fold(items, slug), i, j) ==> Connected(items, i, j, slug)
    ensures Aligned(items, slug) ==> (Together(Fold(items, slug), i, j) <==> Connected(items, i, j, slug))
  {
    FoldIsPartition(items, slug);
    FoldIsChained(items, slug);
    if Aligned(items, slug) && Connected(items, i, j, slug) {
      var p :| ChainBetween(items, i, j, p, slug);
      ChainTogether(items, Fold(items, slug), p, slug);
    }
  }

  // ----- The order of collection makes no difference -----

  /** `ys` is `xs` in another order: `f` and `g` say where each sighting went. */
  ghost predicate Shuffles(f: seq<nat>, g: seq<nat>, xs: seq<DiscoveredCI>, ys: seq<DiscoveredCI>) {
    && |f| == |xs| && |g| == |ys|
    && (forall i :: 0 <= i < |f| ==> f[i] < |g| && g[f[i]] == i && ys[f[i]] == xs[i])
    && (forall j :: 0 <= j < |g| ==> g[j] < |f| && f[g[j]] == j && xs[g[j]] == ys[j])
  }

  lemma ShuffledChain(f: seq<nat>, g: seq<nat>, xs: seq<DiscoveredCI>, ys: seq<DiscoveredCI>, i: nat, j: nat,
                      slug: Slug)
    requires Shuffles(f, g, xs, ys) && Connected(xs, i, j, slug)
    ensures i < |xs| && j < |xs| && Connected(ys, f[i], f[j], slug)
  {
    var p :| ChainBetween(xs, i, j, p, slug);
    var q := seq(|p|, k requires 0 <= k < |p| => f[p[k]]);
    forall k | 0 <= k < |q| - 1 ensures Matches(ys[q[k]], ys[q[k + 1]], slug) {
      assert Matches(xs[p[k]], xs[p[k + 1]], slug);
    }
    assert ChainBetween(ys, f[i], f[j], q, slug);
  }

  lemma ShuffledAligned(f: seq<nat>, g: seq<nat>, xs: seq<DiscoveredCI>, ys: seq<DiscoveredCI>, slug: Slug)
    requires Shuffles(f, g, xs, ys) && Aligned(xs, slug) && Labelled(xs)
    ensures Aligned(ys, slug) && Labelled(ys)
  {
    forall j | 0 <= j < |ys| ensures ys[j].Label() != "" {
      assert xs[g[j]] == ys[j];
    }
    forall i, j | 0 <= i < |ys| && 0 <= j < |ys| && ys[i].HostLike() && Matches(ys[i], ys[j], slug)
      ensures Overlap(ys[i].IdentityAliases(), ys[j].IdentityAliases())
    {
      assert xs[g[i]] == ys[i] && xs[g[j]] == ys[j];
    }
  }

  /** The same sightings share a record, whatever order they came in. */
  lemma PartitionIgnoresOrder(
    f: seq<nat>, g: seq<nat>, xs: seq<DiscoveredCI>, ys: seq<DiscoveredCI>, i: nat, j: nat, slug: Slug)
    requires Shuffles(f, g, xs, ys) && Aligned(xs, slug) && Labelled(xs) && i < |xs| && j < |xs|
    ensures Together(Fold(xs, slug), i, j) <==> Together(Fold(ys, slug), f[i], f[j])
  {
    ShuffledAligned(f, g, xs, ys, slug);
    RecordsAreComponents(xs, slug, i, j);
    RecordsAreComponents(ys, slug, f[i], f[j]);
    if Connected(xs, i, j, slug) { ShuffledChain(f, g, xs, ys, i, j, slug); }
    if Connected(ys, f[i], f[j], slug) { ShuffledChain(g, f, ys, xs, f[i], f[j], slug); }
  }

  /** What a record reports apart from values on which its sightings disagree. */
  datatype Summary = Summary(
    ciType: string, named: string, aliases: set<string>, sources: set<string>, tags: set<string>,
    relationships: set<(string, string)>, attributeKeys: set<string>, observed: bool, declared: bool)

  function SummaryOf(ci: DiscoveredCI): Summary {
    Summary(ci.ciType, ci.Label(), ci.IdentityAliases(), ci.sources, ci.tags, ci.relationships,
            ci.attributes.Keys, ci.observed, ci.Declared())
  }

  /** `b` holds the sightings of `a`, as renumbered by `f` and back by `g`. */
  ghost predicate SameBlock(f: seq<nat>, g: seq<nat>, a: set<nat>, b: set<nat>) {
    && (forall i :: i in a ==> i < |f| && f[i] in b)
    && (forall j :: j in b ==> j < |g| && g[j] in a)
  }

  lemma SameBlockConserves(
    f: seq<nat>, g: seq<nat>, xs: seq<DiscoveredCI>, ys: seq<DiscoveredCI>, r: Record, s: Record, slug: Slug)
    requires Shuffles(f, g, xs, ys) && SameBlock(f, g, r.block, s.block)
    requires Conserves(xs, r, slug) && Conserves(ys, s, slug)
    ensures r.ci.IdentityAliases() <= s.ci.IdentityAliases() && r.ci.tags <= s.ci.tags
    ensures r.ci.sources <= s.ci.sources && r.ci.relationships <= s.ci.relationships
    ensures r.ci.attributes.Keys <= s.ci.attributes.Keys
    ensures r.ci.observed ==> s.ci.observed
    ensures r.ci.Declared() ==> s.ci.Declared()
    ensures r.ci.ciType == s.ci.ciType
  {
    assert forall i :: i in r.block ==> f[i] in s.block && ys[f[i]] == xs[i];
    assert AliasesOf(xs, r.block) <= AliasesOf(ys, s.block);
    assert TagsOf(xs, r.block) <= TagsOf(ys, s.block);
    assert SourcesOf(xs, r.block) <= SourcesOf(ys, s.block);
    assert RelationshipsOf(xs, r.block) <= RelationshipsOf(ys, s.block);
    assert KeysOf(xs, r.block) <= KeysOf(ys, s.block);
    var i: nat :| Eligible(xs, r.block, i);
    assert f[i] in s.block;
  }

  lemma SameBlockLabel(
    f: seq<nat>, g: seq<nat>, xs: seq<DiscoveredCI>, ys: seq<DiscoveredCI>, r: Record, s: Record)
    requires Shuffles(f, g, xs, ys) && SameBlock(f, g, r.block, s.block)
    requires Prevails(xs, r.block, r.ci.Label()) && Prevails(ys, s.block, s.ci.Label())
    requires AnyDeclared(xs, r.block) == AnyDeclared(ys, s.block)
    ensures StrLeq(s.ci.Label(), r.ci.Label())
  {
    var i: nat :| Eligible(xs, r.block, i) && xs[i].Label() == r.ci.Label();
    assert f[i] in s.block && ys[f[i]] == xs[i];
    assert Eligible(ys, s.block, f[i]);
  }

  lemma SameBlockSummary(
    f: seq<nat>, g: seq<nat>, xs: seq<DiscoveredCI>, ys: seq<DiscoveredCI>, r: Record, s: Record, slug: Slug)
    requires Shuffles(f, g, xs, ys) && SameBlock(f, g, r.block, s.block)
    requires Conserves(xs, r, slug) && Conserves(ys, s, slug)
    ensures SummaryOf(r.ci) == SummaryOf(s.ci)
  {
    SameBlockConserves(f, g, xs, ys, r, s, slug);
    SameBlockConserves(g, f, ys, xs, s, r, slug);
    SameBlockLabel(f, g, xs, ys, r, s);
    SameBlockLabel(g, f, ys, xs, s, r);
    StrTotal(r.ci.Label(), s.ci.Label());
  }

  lemma BlockMembers(items: seq<DiscoveredCI>, rs: seq<Record>, k: nat, i: nat, j: nat, slug: Slug)
    requires Partition(items, rs, slug) && k < |rs| && i in rs[k].block
    ensures j in rs[k].block <==> Together(rs, i, j)
    ensures j in rs[k].block ==> j < |items|
  {
    assert Conserves(items, rs[k], slug);
    if Together(rs, i, j) {
      var l: nat :| l < |rs| && i in rs[l].block && j in rs[l].block;
      if k != l { ApartBothWays(rs, k, l, slug); }
    }
  }

  /** If one sighting of a record went to a record, so did all. */
  lemma BlockCarries(f: seq<nat>, g: seq<nat>, xs: seq<DiscoveredCI>, ys: seq<DiscoveredCI>, k: nat, l: nat, i: nat,
                     slug: Slug)
    requires Shuffles(f, g, xs, ys) && Aligned(xs, slug) && Labelled(xs)
    requires k < |Fold(xs, slug)| && i in Fold(xs, slug)[k].block && i < |f|
    requires l < |Fold(ys, slug)| && f[i] in Fold(ys, slug)[l].block
    ensures forall j :: j in Fold(xs, slug)[k].block ==> j < |f| && f[j] in Fold(ys, slug)[l].block
  {
    ShuffledAligned(f, g, xs, ys, slug);
    FoldIsPartition(xs, slug);
    FoldIsPartition(ys, slug);
    forall j | j in Fold(xs, slug)[k].block ensures j < |f| && f[j] in Fold(ys, slug)[l].block {
      BlockMembers(xs, Fold(xs, slug), k, i, j, slug);
      PartitionIgnoresOrder(f, g, xs, ys, i, j, slug);
      BlockMembers(ys, Fold(ys, slug), l, f[i], f[j], slug);
    }
  }

  lemma SummaryIgnoresOrder(
    f: seq<nat>, g: seq<nat>, xs: seq<DiscoveredCI>, ys: seq<DiscoveredCI>, k: nat, slug: Slug) returns (l: nat)
    requires Shuffles(f, g, xs, ys) && Aligned(xs, slug) && Labelled(xs) && k < |Fold(xs, slug)|
    ensures l < |Fold(ys, slug)| && SameBlock(f, g, Fold(xs, slug)[k].block, Fold(ys, slug)[l].block)
    ensures SummaryOf(Fold(xs, slug)[k].ci) == SummaryOf(Fold(ys, slug)[l].ci)
  {
    var rs, ss := Fold(xs, slug), Fold(ys, slug);
    ShuffledAligned(f, g, xs, ys, slug);
    FoldIsPartition(xs, slug);
    FoldIsPartition(ys, slug);
    assert Conserves(xs, rs[k], slug);
    var i: nat :| Eligible(xs, rs[k].block, i);
    assert InSome(ss, f[i]);
    l :| l < |ss| && f[i] in ss[l].block;
    BlockCarries(f, g, xs, ys, k, l, i, slug);
    BlockCarries(g, f, ys, xs, l, k, f[i], slug);
    assert Conserves(ys, ss[l], slug);
    SameBlockSummary(f, g, xs, ys, rs[k], ss[l], slug);
  }

  const CI: Record -> DiscoveredCI := (r: Record) => r.ci
  const RECORD_KEY: DiscoveredCI -> Key := (c: DiscoveredCI) => Key(c.ciType, c.Label(), 0)
  const SUMMARY: DiscoveredCI -> Summary := (c: DiscoveredCI) => SummaryOf(c)
  const SUMMARY_KEY: Summary -> Key := (s: Summary) => Key(s.ciType, s.named, 0)

  /** What `merge` returns: the records, sorted by type and label. */
  function Merged(items: seq<DiscoveredCI>, slug: Slug): seq<DiscoveredCI> {
    StableSort(MapAll(Fold(items, slug), CI), RECORD_KEY)
  }

  ghost predicate KeysDiffer(s: seq<Summary>) {
    forall k, l :: 0 <= k < l < |s| ==> SUMMARY_KEY(s[k]) != SUMMARY_KEY(s[l])
  }

  lemma {:induction false} DistinctCount(s: seq<Summary>, x: Summary)
    requires KeysDiffer(s)
    ensures multiset(s)[x] == if x in s then 1 else 0
  {
    if s != [] {
      var front := s[..|s| - 1];
      DistinctCount(front, x);
      assert s == front + [s[|s| - 1]];
      assert forall k :: 0 <= k < |front| ==> SUMMARY_KEY(s[k]) != SUMMARY_KEY(s[|s| - 1]);
    }
  }

  function Summaries(items: seq<DiscoveredCI>, slug: Slug): seq<Summary> {
    MapAll(MapAll(Fold(items, slug), CI), SUMMARY)
  }

  /** No two records share type and label, since they would share an id. */
  lemma SummaryKeysDiffer(items: seq<DiscoveredCI>, slug: Slug)
    requires Labelled(items)
    ensures KeysDiffer(Summaries(items, slug))
    ensures KeysIdentify(multiset(Summaries(items, slug)), SUMMARY_KEY)
  {
    var rs, ss := Fold(items, slug), Summaries(items, slug);
    FoldIsPartition(items, slug);
    forall k, l | 0 <= k < l < |ss| ensures SUMMARY_KEY(ss[k]) != SUMMARY_KEY(ss[l]) {
      assert Apart(rs[k], rs[l], slug);
    }
    DifferentKeysIdentify(ss);
  }

  lemma DifferentKeysIdentify(ss: seq<Summary>)
    requires KeysDiffer(ss)
    ensures KeysIdentify(multiset(ss), SUMMARY_KEY)
  {
    forall x, y | x in multiset(ss) && y in multiset(ss) && SUMMARY_KEY(x) == SUMMARY_KEY(y) ensures x == y {
      var k :| 0 <= k < |ss| && ss[k] == x;
      var l :| 0 <= l < |ss| && ss[l] == y;
    }
  }

  lemma SummariesShuffle(f: seq<nat>, g: seq<nat>, xs: seq<DiscoveredCI>, ys: seq<DiscoveredCI>, slug: Slug)
    requires Shuffles(f, g, xs, ys) && Aligned(xs, slug) && Labelled(xs)
    ensures forall x :: x in Summaries(xs, slug) ==> x in Summaries(ys, slug)
  {
    var ss, ts := Summaries(xs, slug), Summaries(ys, slug);
    forall x | x in ss ensures x in ts {
      var k: nat :| k < |ss| && ss[k] == x;
      var l := SummaryIgnoresOrder(f, g, xs, ys, k, slug);
      assert ts[l] == x;
    }
  }

  /** The sorted records report the same, whatever order the collectors ran in. */
  lemma MergeIgnoresOrder(f: seq<nat>, g: seq<nat>, xs: seq<DiscoveredCI>, ys: seq<DiscoveredCI>, slug: Slug)
    requires Shuffles(f, g, xs, ys) && Aligned(xs, slug) && Labelled(xs)
    ensures MapAll(Merged(xs, slug), SUMMARY) == MapAll(Merged(ys, slug), SUMMARY)
  {
    var ss, ts := Summaries(xs, slug), Summaries(ys, slug);
    ShuffledAligned(f, g, xs, ys, slug);
    SummariesShuffle(f, g, xs, ys, slug);
    SummariesShuffle(g, f, ys, xs, slug);
    SummaryKeysDiffer(xs, slug);
    SummaryKeysDiffer(ys, slug);
    forall x ensures multiset(ss)[x] == multiset(ts)[x] {
      DistinctCount(ss, x);
      DistinctCount(ts, x);
    }
    assert multiset(ss) == multiset(ts);
    MapSort(MapAll(Fold(xs, slug), CI), RECORD_KEY, SUMMARY, SUMMARY_KEY);
    MapSort(MapAll(Fold(ys, slug), CI), RECORD_KEY, SUMMARY, SUMMARY_KEY);
    SortIgnoresArrangement(ss, ts, SUMMARY_KEY);
  }

  lemma MergedSize(items: seq<DiscoveredCI>, slug: Slug)
    ensures |Merged(items, slug)| == |Fold(items, slug)|
  {
    SortSorts(MapAll(Fold(items, slug), CI), RECORD_KEY);
    assert |multiset(Merged(items, slug))| == |Merged(items, slug)|;
    assert |multiset(MapAll(Fold(items, slug), CI))| == |Fold(items, slug)|;
  }

  lemma FoldSnoc(items: seq<DiscoveredCI>, item: DiscoveredCI, slug: Slug)
    ensures Fold(items + [item], slug) == AddSighting(Fold(items, slug), item, |items|, slug)
  {
    assert (items + [item])[..|items|] == items;
  }

  lemma AddToOne(r: Record, item: DiscoveredCI, n: nat, slug: Slug)
    ensures AddSighting([r], item, n, slug)
            == if Matches(r.ci, item, slug) then [Record(MergedWith(r.ci, item), r.block + {n})]
               else [r, Record(item, {n})]
  {
    assert [r][1..] == [] && [] + [r] == [r];
    FilterSnoc([], r, MatchOf(item, slug));
    FilterSnoc([], r, OtherThan(item, slug));
    var one := Record(MergedWith(r.ci, item), r.block + {n});
    assert Absorb([], one) == one;
    if Matches(r.ci, item, slug) {
      assert Filter([r], MatchOf(item, slug)) == [r] && Filter([r], OtherThan(item, slug)) == [];
      assert Absorb([r], Record(item, {n})) == one;
    }
  }

  lemma FoldOne(a: DiscoveredCI, slug: Slug)
    ensures Fold([a], slug) == [Record(a, {0})]
  {
    FoldSnoc([], a, slug);
    assert [] + [a] == [a];
  }

  lemma FoldTwo(a: DiscoveredCI, b: DiscoveredCI, slug: Slug)
    requires Matches(a, b, slug)
    ensures Fold([a, b], slug) == [Record(MergedWith(a, b), {0} + {1})]
  {
    FoldOne(a, slug);
    FoldSnoc([a], b, slug);
    assert [a] + [b] == [a, b];
    AddToOne(Record(a, {0}), b, 1, slug);
  }

  /** A third sighting either joins the one record of the first two or stays apart. */
  /** A name by which a sighting goes. */
  predicate GoesBy(a: DiscoveredCI, x: string) {
    x != "" && (x == a.name || x == a.canonicalName || x in a.aliases)
  }

  /**
    Two sightings become one record exactly when they are of one type and their labels
    make one id or, for hosts and devices, they share a name. The record is called after
    the one that was declared, or else after the first label in order.
  */
  lemma TwoSightingsExactly(a: DiscoveredCI, b: DiscoveredCI, slug: Slug)
    ensures var la := if a.canonicalName == "" then a.name else a.canonicalName;
            var lb := if b.canonicalName == "" then b.name else b.canonicalName;
            var declaredA := a.declaredFlag == Some(true) || (a.declaredFlag.None? && !a.observed);
            var declaredB := b.declaredFlag == Some(true) || (b.declaredFlag.None? && !b.observed);
            && (|Fold([a, b], slug)| == 1 <==>
                a.ciType == b.ciType
                && (slug(la) == slug(lb)
                    || ((b.ciType == "host" || b.ciType == "device") && exists x :: GoesBy(a, x) && GoesBy(b, x))))
            && (|Fold([a, b], slug)| == 1 && la != "" && lb != "" ==>
                  Fold([a, b], slug)[0].ci.canonicalName
                  == if declaredA && !declaredB then la else if declaredB && !declaredA then lb
                     else if StrLeq(la, lb) then la else lb)
            && (|Fold([a, b], slug)| != 1 ==> Fold([a, b], slug) == [Record(a, {0}), Record(b, {1})])
  {
    FoldOne(a, slug);
    FoldSnoc([a], b, slug);
    assert [a] + [b] == [a, b];
    AddToOne(Record(a, {0}), b, 1, slug);
    assert forall x :: (x in a.IdentityAliases() <==> GoesBy(a, x)) && (x in b.IdentityAliases() <==> GoesBy(b, x));
    if x :| GoesBy(a, x) && GoesBy(b, x) { assert Overlap(a.IdentityAliases(), b.IdentityAliases()); }
  }

  lemma FoldThird(a: DiscoveredCI, b: DiscoveredCI, c: DiscoveredCI, r: Record, slug: Slug)
    requires Fold([a, b], slug) == [r]
    ensures Fold([a, b, c], slug)
            == if Matches(r.ci, c, slug) then [Record(MergedWith(r.ci, c), r.block + {2})] else [r, Record(c, {2})]
  {
    FoldSnoc([a, b], c, slug);
    assert [a, b] + [c] == [a, b, c];
    AddToOne(r, c, 2, slug);
  }

  // ----- The loop -----

  function RemoveEach(s: seq<DiscoveredCI>, xs: seq<DiscoveredCI>): seq<DiscoveredCI>
    decreases |xs|
  {
    if xs == [] then s else RemoveEach(RemoveFirst(s, xs[0]), xs[1..])
  }

  lemma {:induction false} RemoveEachLater(h: DiscoveredCI, s: seq<DiscoveredCI>, xs: seq<DiscoveredCI>)
    requires h !in xs
    ensures RemoveEach([h] + s, xs) == [h] + RemoveEach(s, xs)
    decreases |xs|
  {
    if xs != [] {
      assert ([h] + s)[1..] == s;
      RemoveEachLater(h, RemoveFirst(s, xs[0]), xs[1..]);
    }
  }

  /** Removing every selected element, one at a time, leaves the others in order. */
  lemma {:induction false} RemoveSelected(s: seq<DiscoveredCI>, p: DiscoveredCI -> bool, q: DiscoveredCI -> bool)
    requires forall x :: p(x) != q(x)
    ensures RemoveEach(s, Filter(s, p)) == Filter(s, q)
  {
    if s != [] {
      RemoveSelected(s[1..], p, q);
      var xs := Filter(s[1..], p);
      if p(s[0]) {
        assert Filter(s, p)[0] == s[0] && Filter(s, p)[1..] == xs;
      } else {
        FilterMember(s[1..], p, s[0]);
        assert [s[0]] + s[1..] == s && Filter(s, p) == xs;
        RemoveEachLater(s[0], s[1..], xs);
      }
    }
  }

  lemma FoldIsLabelled(items: seq<DiscoveredCI>, n: nat, slug: Slug)
    requires n <= |items|
    ensures Labelled(items) ==> forall r :: r in Fold(items[..n], slug) ==> r.ci.Label() != ""
  {
    if Labelled(items) {
      FoldIsPartition(items[..n], slug);
      forall r | r in Fold(items[..n], slug) ensures r.ci.Label() != "" {
        var k :| 0 <= k < |Fold(items[..n], slug)| && Fold(items[..n], slug)[k] == r;
        assert Conserves(items[..n], r, slug);
      }
    }
  }

  /** `merge`: succeeds when every sighting is named, and returns the sorted fold. */
  method Merge(items: seq<DiscoveredCI>, slug: Slug) returns (result: Result<seq<DiscoveredCI>, string>)
    ensures result.Success? ==> result.value == Merged(items, slug)
    ensures Labelled(items) ==> result.Success?
  {
    var folded: seq<DiscoveredCI> := [];
    var i := 0;
    while i < |items|
      invariant 0 <= i <= |items|
      invariant folded == MapAll(Fold(items[..i], slug), CI)
    {
      FoldIsLabelled(items, i, slug);
      PlacedIs(folded, Fold(items[..i], slug), items[i], i, slug);
      var added := Place(folded, items[i], slug);
      if added.Failure? { return added; }
      folded := added.value;
      assert items[..i + 1][..i] == items[..i];
      i := i + 1;
    }
    assert items[..i] == items;
    result := Success(StableSort(folded, RECORD_KEY));
  }

  function AbsorbAll(matches: seq<DiscoveredCI>, merged: DiscoveredCI): DiscoveredCI
    decreases |matches|
  {
    if matches == [] then merged else AbsorbAll(matches[1..], MergedWith(matches[0], merged))
  }

  lemma {:induction false} AbsorbAllIs(ms: seq<Record>, merged: Record)
    ensures AbsorbAll(MapAll(ms, CI), merged.ci) == Absorb(ms, merged).ci
    decreases |ms|
  {
    if ms != [] {
      assert MapAll(ms, CI)[1..] == MapAll(ms[1..], CI);
      AbsorbAllIs(ms[1..], Record(MergedWith(ms[0].ci, merged.ci), ms[0].block + merged.block));
    }
  }

  function Selects(item: DiscoveredCI, slug: Slug): DiscoveredCI -> bool {
    (c: DiscoveredCI) => Matches(c, item, slug)
  }

  /** Taking the matches out and adding their union places the sighting. */
  lemma PlacedIs(was: seq<DiscoveredCI>, rs: seq<Record>, item: DiscoveredCI, n: nat, slug: Slug)
    requires was == MapAll(rs, CI)
    ensures var matches := Filter(was, Selects(item, slug));
            RemoveEach(was, matches) + [AbsorbAll(matches, item)] == MapAll(AddSighting(rs, item, n, slug), CI)
  {
    var rejects := (c: DiscoveredCI) => !Matches(c, item, slug);
    FilterMap(rs, CI, MatchOf(item, slug), Selects(item, slug));
    FilterMap(rs, CI, OtherThan(item, slug), rejects);
    RemoveSelected(was, Selects(item, slug), rejects);
    AbsorbAllIs(Filter(rs, MatchOf(item, slug)), Record(item, {n}));
    AddedIsSnoc(rs, item, n, slug);
  }

  /** One turn of the loop: the matches leave the list and their union joins it. */
  method Place(was: seq<DiscoveredCI>, item: DiscoveredCI, slug: Slug)
    returns (result: Result<seq<DiscoveredCI>, string>)
    ensures result.Success? ==>
              var matches := Filter(was, Selects(item, slug));
              result.value == RemoveEach(was, matches) + [AbsorbAll(matches, item)]
    ensures item.Label() != "" && AllNamed(was) ==> result.Success?
  {
    var matches := Filter(was, Selects(item, slug));
    if matches == [] { return Success(was + [item]); }
    MatchesAreNamed(was, item, slug);
    var folded, merged, k := AbsorbMatches(was, matches, item);
    if k < |matches| { return Failure("min() arg is an empty sequence"); }
    result := Success(folded + [merged]);
  }

  /** `min()` of two empty names is an error. */
  predicate Unnamed(a: DiscoveredCI, b: DiscoveredCI) {
    a.Declared() == b.Declared() && a.Label() == "" && b.Label() == ""
  }

  predicate AllNamed(cis: seq<DiscoveredCI>) {
    forall c :: c in cis ==> c.Label() != ""
  }

  lemma MatchesAreNamed(was: seq<DiscoveredCI>, item: DiscoveredCI, slug: Slug)
    ensures AllNamed(was) ==> AllNamed(Filter(was, Selects(item, slug)))
  {
    forall c | c in Filter(was, Selects(item, slug)) ensures c in was {
      FilterMember(was, Selects(item, slug), c);
    }
  }

  lemma StaysNamed(matches: seq<DiscoveredCI>, k: nat, merged: DiscoveredCI)
    requires k < |matches|
    ensures AllNamed(matches) && merged.Label() != "" ==> !Unnamed(matches[k], merged)
    ensures AllNamed(matches) && merged.Label() != "" ==> MergedWith(matches[k], merged).Label() != ""
  {
    if AllNamed(matches) && merged.Label() != "" {
      assert matches[k] in matches;
      MergedAliases(matches[k], merged);
    }
  }

  lemma NextAbsorbed(matches: seq<DiscoveredCI>, k: nat, merged: DiscoveredCI, folded: seq<DiscoveredCI>)
    requires k < |matches|
    ensures AbsorbAll(matches[k..], merged) == AbsorbAll(matches[k + 1..], MergedWith(matches[k], merged))
    ensures RemoveEach(folded, matches[k..]) == RemoveEach(RemoveFirst(folded, matches[k]), matches[k + 1..])
  {
    assert matches[k..][1..] == matches[k + 1..];
  }

  /** Takes the matches out of the list one by one, up to the first that cannot be named. */
  method AbsorbMatches(was: seq<DiscoveredCI>, matches: seq<DiscoveredCI>, item: DiscoveredCI)
    returns (folded: seq<DiscoveredCI>, merged: DiscoveredCI, k: nat)
    ensures k <= |matches| && (AllNamed(matches) && item.Label() != "" ==> k == |matches|)
    ensures k == |matches| ==> merged == AbsorbAll(matches, item) && folded == RemoveEach(was, matches)
  {
    folded, merged, k := was, item, 0;
    while k < |matches| && !Unnamed(matches[k], merged)
      invariant k <= |matches|
      invariant AbsorbAll(matches, item) == AbsorbAll(matches[k..], merged)
      invariant RemoveEach(was, matches) == RemoveEach(folded, matches[k..])
      invariant AllNamed(matches) && item.Label() != "" ==> merged.Label() != ""
    {
      StaysNamed(matches, k, merged);
      NextAbsorbed(matches, k, merged, folded);
      merged := MergedWith(matches[k], merged);
      folded := RemoveFirst(folded, matches[k]);
      k := k + 1;
    }
    if k < |matches| { StaysNamed(matches, k, merged); } else { assert matches[k..] == []; }
  }
}
