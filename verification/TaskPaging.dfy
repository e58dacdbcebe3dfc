/**
  Bounded task-view paging (`task_view_page_from_store`): each page folds at most
  `limit + 1` identifiers handed over by an owner's keyset reader, and seals the
  position of the next page in a cursor.
*/
module TaskPaging {
  import opened Ordering
  import opened Wrappers

  const PAGE_LIMIT: nat := 200
  const MAX_ID: nat := 128
  const MAX_STATE: nat := 256

  /** Code-point order, as `<` compares strings. */
  predicate Less(a: string, b: string) {
    !StrLeq(b, a)
  }

  /** A sealed cursor. Sealing is modelled as unforgeable: a cursor is its payload. */
  datatype Cursor = Cursor(after: string, archived: bool, limit: int, population: string, scope: string)

  /** What folding one identifier gives. An unreadable card is served as a task. */
  datatype Folded = Missing | Unreadable | Readable(id: string, taskOrEpic: bool, archived: bool)

  type Store = map<string, Folded>

  datatype Batch = Batch(ids: seq<string>, population: string)
  datatype Page = Page(items: seq<string>, population: string, next: Option<Cursor>, hasMore: bool, touched: nat)
  datatype Error = BadLimit | BadCursor | BadIdentifier | OverfullBatch | StalePopulation | UnstableOrder

  // ----- One page -----

  /** `validate_card_lock_identifier`: a bounded name that cannot be a path. */
  predicate ValidId(id: string) {
    && 0 < |id| <= MAX_ID && id != "."
    && (forall i :: 0 <= i < |id| - 1 ==> !(id[i] == '.' && id[i + 1] == '.'))
    && (forall c :: c in id ==> c != '/' && c != '\\' && c >= 32 as char && c != 127 as char)
  }

  predicate CursorFits(c: Cursor, scope: string, limit: int, includeArchived: bool) {
    && c.scope == scope && c.limit == limit && c.archived == includeArchived
    && ValidId(c.after) && 0 < |c.population| <= MAX_STATE
  }

  function AfterOf(cursor: Option<Cursor>): Option<string> {
    if cursor.Some? then Some(cursor.value.after) else None
  }

  predicate Follows(id: string, previous: Option<string>) {
    previous.Some? ==> Less(previous.value, id)
  }

  /** The card is served under the identifier it was asked for. */
  predicate Eligible(store: Store, id: string, includeArchived: bool) {
    ValidId(id) && id in store && match store[id]
    case Missing => false
    case Unreadable => true
    case Readable(cardId, taskOrEpic, archived) => cardId == id && taskOrEpic && (includeArchived || !archived)
  }

  /** Identifiers in strictly increasing order after `previous`, all eligible. */
  ghost predicate GoodIds(store: Store, ids: seq<string>, previous: Option<string>, includeArchived: bool) {
    && (forall i :: 0 <= i < |ids| ==> Eligible(store, ids[i], includeArchived) && Follows(ids[i], previous))
    && (forall i, j :: 0 <= i < j < |ids| ==> Less(ids[i], ids[j]))
  }

  predicate StateFits(batch: Batch, cursor: Option<Cursor>) {
    && 0 < |batch.population| <= MAX_STATE
    && (cursor.Some? ==> batch.population == cursor.value.population)
  }

  function NextCursor(scope: string, limit: int, includeArchived: bool, batch: Batch): Option<Cursor>
    requires 1 <= limit
  {
    if |batch.ids| > limit
    then Some(Cursor(batch.ids[limit - 1], includeArchived, limit, batch.population, scope)) else None
  }

  /** When a page is served, for any reader, well behaved or not. */
  ghost predicate Served(store: Store, scope: string, limit: int, cursor: Option<Cursor>, includeArchived: bool,
                         batch: Batch) {
    && 1 <= limit <= PAGE_LIMIT
    && (cursor.Some? ==> CursorFits(cursor.value, scope, limit, includeArchived))
    && |batch.ids| <= limit + 1 && StateFits(batch, cursor)
    && GoodIds(store, batch.ids, AfterOf(cursor), includeArchived)
  }

  function PageOf(scope: string, limit: int, includeArchived: bool, batch: Batch): Page
    requires 1 <= limit
  {
    Page(if |batch.ids| > limit then batch.ids[..limit] else batch.ids, batch.population,
         NextCursor(scope, limit, includeArchived, batch), |batch.ids| > limit, |batch.ids|)
  }

  lemma LessTransitive(a: string, b: string, c: string)
    requires Less(a, b) && Less(b, c)
    ensures Less(a, c)
  {
    StrTotal(a, b);
    StrTotal(b, c);
    if StrLeq(c, a) { StrTransitive(c, a, b); }
  }

  /** Comparing with the identifier before is enough. */
  lemma AddId(store: Store, ids: seq<string>, id: string, previous: Option<string>, includeArchived: bool)
    requires GoodIds(store, ids, previous, includeArchived)
    ensures GoodIds(store, ids + [id], previous, includeArchived)
            <==> Eligible(store, id, includeArchived)
                 && Follows(id, if ids == [] then previous else Some(ids[|ids| - 1]))
  {
    var more := ids + [id];
    if Eligible(store, id, includeArchived) && Follows(id, if ids == [] then previous else Some(ids[|ids| - 1])) {
      forall i | 0 <= i < |ids| ensures Less(ids[i], id) {
        if i < |ids| - 1 { LessTransitive(ids[i], ids[|ids| - 1], id); }
      }
      if ids != [] && previous.Some? { LessTransitive(previous.value, ids[0], id); }
      assert GoodIds(store, more, previous, includeArchived);
    } else {
      assert more[|ids|] == id;
      if ids != [] { assert more[|ids| - 1] == ids[|ids| - 1]; }
    }
  }

  lemma PrefixIsGood(store: Store, ids: seq<string>, previous: Option<string>, includeArchived: bool, k: nat)
    requires k <= |ids|
    ensures GoodIds(store, ids, previous, includeArchived) ==> GoodIds(store, ids[..k], previous, includeArchived)
  {
  }

  method TaskViewPage(store: Store, scope: string, limit: int, cursor: Option<Cursor>, includeArchived: bool,
                      batch: Batch)
    returns (r: Result<Page, Error>)
    ensures r.Success? <==> Served(store, scope, limit, cursor, includeArchived, batch)
    ensures r.Success? ==> r.value == PageOf(scope, limit, includeArchived, batch)
    ensures r == Failure(BadLimit) <==> limit < 1 || limit > 200
    ensures r == Failure(BadCursor)
            <==> 1 <= limit <= 200 && cursor.Some? && !CursorFits(cursor.value, scope, limit, includeArchived)
    ensures r == Failure(OverfullBatch)
            <==> 1 <= limit <= 200 && (cursor.Some? ==> CursorFits(cursor.value, scope, limit, includeArchived))
                 && |batch.ids| > limit + 1
  {
    if limit < 1 || limit > PAGE_LIMIT { return Failure(BadLimit); }
    if cursor.Some? && !CursorFits(cursor.value, scope, limit, includeArchived) { return Failure(BadCursor); }
    if |batch.ids| > limit + 1 { return Failure(OverfullBatch); }
    if !StateFits(batch, cursor) { return Failure(StalePopulation); }
    var cards: seq<string> := [];
    var previous := AfterOf(cursor);
    for i := 0 to |batch.ids|
      invariant cards == batch.ids[..i]
      invariant previous == if i == 0 then AfterOf(cursor) else Some(batch.ids[i - 1])
      invariant GoodIds(store, batch.ids[..i], AfterOf(cursor), includeArchived)
    {
      var id := batch.ids[i];
      AddId(store, batch.ids[..i], id, AfterOf(cursor), includeArchived);
      assert batch.ids[..i + 1] == batch.ids[..i] + [id];
      if !ValidId(id) {
        PrefixIsGood(store, batch.ids, AfterOf(cursor), includeArchived, i + 1);
        return Failure(BadIdentifier);
      }
      if previous.Some? && !Less(previous.value, id) {
        PrefixIsGood(store, batch.ids, AfterOf(cursor), includeArchived, i + 1);
        return Failure(UnstableOrder);
      }
      if !Eligible(store, id, includeArchived) { return Failure(StalePopulation); }
      cards, previous := cards + [id], Some(id);
    }
    assert batch.ids[..|batch.ids|] == batch.ids;
    var items := if |cards| > limit then cards[..limit] else cards;
    var next := if |cards| > limit
                then Some(Cursor(cards[limit - 1], includeArchived, limit, batch.population, scope)) else None;
    r := Success(Page(items, batch.population, next, |cards| > limit, |cards|));
  }

  /** The card of `id` is a task or epic under its own name, or cannot be read; archived ones on request. */
  ghost predicate Listed(store: Store, id: string, includeArchived: bool) {
    && 0 < |id| <= 128 && id != "." && (forall i :: 0 <= i < |id| - 1 && id[i] == '.' ==> id[i + 1] != '.')
    && (forall c :: c in id ==> c !in {'/', '\\'} && ' ' <= c && c as int != 127)
    && id in store
    && (store[id] == Unreadable
        || exists archived :: store[id] == Readable(id, true, archived) && (archived ==> includeArchived))
  }

  lemma ListedIs(store: Store, id: string, includeArchived: bool)
    ensures Eligible(store, id, includeArchived) <==> Listed(store, id, includeArchived)
  {
  }

  /** The identifier at `i` is listed and greater than the one before it, on this page or the last. */
  ghost predicate InTurn(store: Store, ids: seq<string>, i: nat, previous: Option<string>, includeArchived: bool)
    requires i < |ids|
  {
    && Listed(store, ids[i], includeArchived)
    && (i == 0 && previous.Some? ==> Less(previous.value, ids[0]))
    && (i > 0 ==> Less(ids[i - 1], ids[i]))
  }

  /**
    A page is served exactly when the limit and the batch are in bounds, the cursor was
    issued for this very listing, and every identifier is listed and greater than the
    one before it; the page holds the first `limit` of them.
  */
  lemma ServedExactly(store: Store, scope: string, limit: int, cursor: Option<Cursor>, includeArchived: bool,
                      batch: Batch)
    ensures Served(store, scope, limit, cursor, includeArchived, batch) <==>
            && 1 <= limit <= 200 && |batch.ids| <= limit + 1 && 0 < |batch.population| <= 256
            && (cursor.Some? ==>
                  && cursor.value == Cursor(cursor.value.after, includeArchived, limit, batch.population, scope)
                  && ValidId(cursor.value.after))
            && (forall i :: 0 <= i < |batch.ids| ==>
                  InTurn(store, batch.ids, i, AfterOf(cursor), includeArchived))
    ensures Served(store, scope, limit, cursor, includeArchived, batch) ==>
              var page := PageOf(scope, limit, includeArchived, batch);
              && page.items <= batch.ids && |page.items| == (if |batch.ids| > limit then limit else |batch.ids|)
              && page.population == batch.population && page.touched == |batch.ids|
              && (page.hasMore <==> |batch.ids| > limit) && (page.next.Some? <==> page.hasMore)
              && (page.hasMore ==> page.next == Some(Cursor(page.items[limit - 1], includeArchived, limit,
                                                            batch.population, scope)))
  {
    NextToEachOther(store, batch.ids, AfterOf(cursor), includeArchived);
  }

  /** Comparing neighbours is enough. */
  lemma {:induction false} NextToEachOther(store: Store, ids: seq<string>, previous: Option<string>,
                                           includeArchived: bool)
    ensures GoodIds(store, ids, previous, includeArchived) <==>
            forall i :: 0 <= i < |ids| ==> InTurn(store, ids, i, previous, includeArchived)
  {
    if ids != [] {
      var front, last := ids[..|ids| - 1], ids[|ids| - 1];
      assert ids == front + [last];
      NextToEachOther(store, front, previous, includeArchived);
      forall i | 0 <= i < |front|
        ensures InTurn(store, front, i, previous, includeArchived) == InTurn(store, ids, i, previous, includeArchived)
      {
      }
      ListedIs(store, last, includeArchived);
      if GoodIds(store, front, previous, includeArchived) {
        AddId(store, front, last, previous, includeArchived);
        assert InTurn(store, ids, |front|, previous, includeArchived)
               <==> Eligible(store, last, includeArchived)
                    && Follows(last, if front == [] then previous else Some(front[|front| - 1]));
      } else {
        PrefixIsGood(store, ids, previous, includeArchived, |front|);
      }
    }
  }

  // ----- No reader can make pages overlap -----

  /**
    Whatever two readers answer, and whatever happened to the cards in between,
    every identifier on the page behind a cursor is greater than every identifier
    on the page that issued it.
  */
  lemma NextPageIsLater(store1: Store, store2: Store, scope: string, limit: int, cursor: Option<Cursor>,
                        includeArchived: bool, batch1: Batch, batch2: Batch, i: nat, j: nat)
    requires Served(store1, scope, limit, cursor, includeArchived, batch1)
    requires var next := NextCursor(scope, limit, includeArchived, batch1);
             next.Some? && Served(store2, scope, limit, next, includeArchived, batch2)
    requires i < |PageOf(scope, limit, includeArchived, batch1).items|
    requires j < |PageOf(scope, limit, includeArchived, batch2).items|
    ensures Less(PageOf(scope, limit, includeArchived, batch1).items[i],
                 PageOf(scope, limit, includeArchived, batch2).items[j])
  {
    var last := batch1.ids[limit - 1];
    assert Follows(batch2.ids[j], Some(last));
    if i < limit - 1 {
      LessTransitive(batch1.ids[i], last, batch2.ids[j]);
    }
  }

  // ----- Following the cursors of a correct reader -----

  /** An unchanged population: increasing and eligible. */
  ghost predicate Population(store: Store, ids: seq<string>, includeArchived: bool) {
    GoodIds(store, ids, None, includeArchived)
  }

  /** The identifiers after a position. */
  function After(ids: seq<string>, after: Option<string>): seq<string> {
    if ids == [] || Follows(ids[0], after) then ids else After(ids[1..], after)
  }

  /** A correct keyset reader: the first `n` identifiers after the position. */
  function KeysetRead(ids: seq<string>, state: string, after: Option<string>, n: nat): Batch {
    var rest := After(ids, after);
    Batch(if |rest| > n then rest[..n] else rest, state)
  }

  /** In an increasing population, the rest after the k-th identifier is the suffix. */
  lemma {:induction false} AfterIsSuffix(ids: seq<string>, k: nat)
    requires (forall i, j :: 0 <= i < j < |ids| ==> Less(ids[i], ids[j])) && k < |ids|
    ensures After(ids, Some(ids[k])) == ids[k + 1..]
    decreases |ids|
  {
    StrTotal(ids[0], ids[k]);
    var rest := ids[1..];
    if k > 0 {
      assert Less(ids[0], ids[k]);
      AfterIsSuffix(rest, k - 1);
      assert rest[k - 1] == ids[k] && rest[k..] == ids[k + 1..];
    } else if rest != [] {
      assert Less(ids[0], ids[1]) && rest[0] == ids[1];
    }
  }

  /** What a client collects by following `next_cursor` from a position on. */
  ghost function Collect(store: Store, ids: seq<string>, state: string, scope: string, limit: int,
                         includeArchived: bool, cursor: Option<Cursor>, fuel: nat): Option<seq<string>>
    decreases fuel
  {
    var batch := KeysetRead(ids, state, AfterOf(cursor), if limit >= 0 then limit + 1 else 0);
    if !Served(store, scope, limit, cursor, includeArchived, batch) || fuel == 0 then None
    else
      var page := PageOf(scope, limit, includeArchived, batch);
      if page.next.None? then Some(page.items)
      else
        var rest := Collect(store, ids, state, scope, limit, includeArchived, page.next, fuel - 1);
        if rest.None? then None else Some(page.items + rest.value)
  }

  function Pages(n: nat, limit: nat): nat
    requires limit > 0
  {
    if n <= limit then 1 else 1 + Pages(n - limit, limit)
  }

  lemma SuffixIsGood(store: Store, ids: seq<string>, includeArchived: bool, k: nat, n: nat)
    requires GoodIds(store, ids, None, includeArchived) && k <= n <= |ids|
    ensures GoodIds(store, ids[k..n], if k == 0 then None else Some(ids[k - 1]), includeArchived)
  {
  }

  /** The cursor of the page that ended just before the k-th identifier. */
  predicate CursorAt(ids: seq<string>, state: string, scope: string, limit: int, includeArchived: bool,
                     cursor: Option<Cursor>, k: nat)
    requires k <= |ids|
  {
    if cursor.None? then k == 0
    else 1 <= k && cursor.value == Cursor(ids[k - 1], includeArchived, limit, state, scope)
  }

  lemma ReadIs(ids: seq<string>, state: string, scope: string, limit: int, includeArchived: bool,
               cursor: Option<Cursor>, k: nat, n: nat)
    requires forall i, j :: 0 <= i < j < |ids| ==> Less(ids[i], ids[j])
    requires k <= |ids| && CursorAt(ids, state, scope, limit, includeArchived, cursor, k)
    ensures KeysetRead(ids, state, AfterOf(cursor), n)
            == Batch(ids[k..k + if |ids| - k > n then n else |ids| - k], state)
    ensures AfterOf(cursor) == if k == 0 then None else Some(ids[k - 1])
  {
    var m := if |ids| - k > n then n else |ids| - k;
    if cursor.Some? {
      AfterIsSuffix(ids, k - 1);
    }
    assert After(ids, AfterOf(cursor)) == ids[k..];
    assert ids[k..][..m] == ids[k..k + m];
  }

  lemma ReadFrom(store: Store, ids: seq<string>, state: string, scope: string, limit: int,
                 includeArchived: bool, cursor: Option<Cursor>, k: nat)
    requires Population(store, ids, includeArchived) && 0 < |state| <= MAX_STATE && 1 <= limit <= PAGE_LIMIT
    requires k <= |ids| && CursorAt(ids, state, scope, limit, includeArchived, cursor, k)
    ensures var batch, n := KeysetRead(ids, state, AfterOf(cursor), limit + 1), |ids| - k;
            && batch == Batch(ids[k..k + if n > limit + 1 then limit + 1 else n], state)
            && Served(store, scope, limit, cursor, includeArchived, batch)
  {
    ReadIs(ids, state, scope, limit, includeArchived, cursor, k, limit + 1);
    SuffixIsGood(store, ids, includeArchived, k, k + if |ids| - k > limit + 1 then limit + 1 else |ids| - k);
  }

  /** The page read from the k-th identifier, and the cursor it hands on. */
  lemma PageAt(ids: seq<string>, state: string, scope: string, limit: int, includeArchived: bool,
               cursor: Option<Cursor>, k: nat)
    requires k <= |ids| && 1 <= limit
    requires KeysetRead(ids, state, AfterOf(cursor), limit + 1)
             == Batch(ids[k..k + if |ids| - k > limit + 1 then limit + 1 else |ids| - k], state)
    ensures var page := PageOf(scope, limit, includeArchived, KeysetRead(ids, state, AfterOf(cursor), limit + 1));
            if |ids| - k > limit then
              page.items == ids[k..k + limit] && page.next.Some?
              && CursorAt(ids, state, scope, limit, includeArchived, page.next, k + limit)
            else page.items == ids[k..] && page.next.None?
  {
  }

  lemma SliceJoin(ids: seq<string>, i: nat, j: nat)
    requires i <= j <= |ids|
    ensures ids[i..j] + ids[j..] == ids[i..]
  {
  }

  /** Collecting from the k-th identifier: one page and then what its cursor collects. */
  lemma CollectMore(store: Store, ids: seq<string>, state: string, scope: string, limit: int,
                    includeArchived: bool, cursor: Option<Cursor>, k: nat, fuel: nat, page: Page)
    requires fuel > 0 && 1 <= limit && k + limit <= |ids|
    requires page == PageOf(scope, limit, includeArchived, KeysetRead(ids, state, AfterOf(cursor), limit + 1))
    requires Served(store, scope, limit, cursor, includeArchived, KeysetRead(ids, state, AfterOf(cursor), limit + 1))
    requires page.next.Some? && page.items == ids[k..k + limit]
    requires Collect(store, ids, state, scope, limit, includeArchived, page.next, fuel - 1) == Some(ids[k + limit..])
    ensures Collect(store, ids, state, scope, limit, includeArchived, cursor, fuel) == Some(ids[k..])
  {
    SliceJoin(ids, k, k + limit);
  }

  lemma CollectLast(store: Store, ids: seq<string>, state: string, scope: string, limit: int,
                    includeArchived: bool, cursor: Option<Cursor>, page: Page)
    requires 1 <= limit && page.next.None?
    requires page == PageOf(scope, limit, includeArchived, KeysetRead(ids, state, AfterOf(cursor), limit + 1))
    requires Served(store, scope, limit, cursor, includeArchived, KeysetRead(ids, state, AfterOf(cursor), limit + 1))
    ensures Collect(store, ids, state, scope, limit, includeArchived, cursor, 1) == Some(page.items)
  {
  }

  lemma NextStart(store: Store, ids: seq<string>, state: string, scope: string, limit: int,
                  includeArchived: bool, cursor: Option<Cursor>, k: nat, page: Page)
    requires Population(store, ids, includeArchived) && 0 < |state| <= MAX_STATE && 1 <= limit <= PAGE_LIMIT
    requires k + limit < |ids| && CursorAt(ids, state, scope, limit, includeArchived, cursor, k)
    requires page == PageOf(scope, limit, includeArchived, KeysetRead(ids, state, AfterOf(cursor), limit + 1))
    ensures CursorAt(ids, state, scope, limit, includeArchived, page.next, k + limit)
  {
    ReadFrom(store, ids, state, scope, limit, includeArchived, cursor, k);
    PageAt(ids, state, scope, limit, includeArchived, cursor, k);
  }

  /** One turn: the page from the k-th identifier, and what follows it if anything does. */
  lemma CollectTurn(store: Store, ids: seq<string>, state: string, scope: string, limit: int,
                    includeArchived: bool, cursor: Option<Cursor>, k: nat, page: Page)
    requires Population(store, ids, includeArchived) && 0 < |state| <= MAX_STATE && 1 <= limit <= PAGE_LIMIT
    requires k <= |ids| && CursorAt(ids, state, scope, limit, includeArchived, cursor, k)
    requires page == PageOf(scope, limit, includeArchived, KeysetRead(ids, state, AfterOf(cursor), limit + 1))
    requires |ids| - k > limit ==>
               Collect(store, ids, state, scope, limit, includeArchived, page.next, Pages(|ids| - k - limit, limit))
               == Some(ids[k + limit..])
    ensures Collect(store, ids, state, scope, limit, includeArchived, cursor, Pages(|ids| - k, limit)) == Some(ids[k..])
  {
    ReadFrom(store, ids, state, scope, limit, includeArchived, cursor, k);
    PageAt(ids, state, scope, limit, includeArchived, cursor, k);
    if |ids| - k > limit {
      CollectMore(store, ids, state, scope, limit, includeArchived, cursor, k, Pages(|ids| - k, limit), page);
    } else {
      CollectLast(store, ids, state, scope, limit, includeArchived, cursor, page);
    }
  }

  lemma {:induction false} CollectFrom(store: Store, ids: seq<string>, state: string, scope: string, limit: int,
                                      includeArchived: bool, cursor: Option<Cursor>, k: nat)
    requires Population(store, ids, includeArchived) && 0 < |state| <= MAX_STATE && 1 <= limit <= PAGE_LIMIT
    requires k <= |ids| && CursorAt(ids, state, scope, limit, includeArchived, cursor, k)
    ensures Collect(store, ids, state, scope, limit, includeArchived, cursor, Pages(|ids| - k, limit)) == Some(ids[k..])
    decreases |ids| - k
  {
    var page := PageOf(scope, limit, includeArchived, KeysetRead(ids, state, AfterOf(cursor), limit + 1));
    if |ids| - k > limit {
      NextStart(store, ids, state, scope, limit, includeArchived, cursor, k, page);
      CollectFrom(store, ids, state, scope, limit, includeArchived, page.next, k + limit);
    }
    CollectTurn(store, ids, state, scope, limit, includeArchived, cursor, k, page);
  }

  /**
    Following the cursors over an unchanged population served by a correct keyset
    reader ends after the expected number of pages and yields every identifier
    exactly once, in increasing order.
  */
  lemma PagingIsExactlyOnce(store: Store, ids: seq<string>, state: string, scope: string, limit: int,
                            includeArchived: bool)
    requires Population(store, ids, includeArchived) && 0 < |state| <= MAX_STATE && 1 <= limit <= PAGE_LIMIT
    ensures Collect(store, ids, state, scope, limit, includeArchived, None, Pages(|ids|, limit)) == Some(ids)
  {
    CollectFrom(store, ids, state, scope, limit, includeArchived, None, 0);
    assert ids[0..] == ids;
  }
}
