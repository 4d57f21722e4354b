/** The client side of a listing: the page-to-cursor cache of
    frontend/src/hooks/use-cursor-pager.ts and `collectAllPages` of frontend/src/api/pagination.ts. */
module CursorPager {
  import opened Wrappers
  import opened Listing
  import opened Pagination

  /** The callback that requests one page. */
  type Fetcher = Option<Token> -> Page

  /** The cursor of the page at this index: the one its predecessor handed out. */
  function CursorOf(pages: seq<Page>, i: nat): Option<Token>
    requires i <= |pages|
  {
    if i == 0 then None else pages[i - 1].next
  }

  /** The pages an unchanged listing serves, and the cursors that lead from one to the next. */
  ghost predicate Serves(fetch: Fetcher, pages: seq<Page>) {
    && pages != []
    && (forall i {:trigger CursorOf(pages, i)} :: 0 <= i < |pages| ==> fetch(CursorOf(pages, i)) == pages[i])
    && (forall i :: 0 <= i < |pages| ==> (pages[i].next.Some? <==> i + 1 < |pages|))
    && (forall i :: 0 <= i < |pages| ==> (pages[i].hasMore <==> i + 1 < |pages|))
  }

  ghost predicate KnownCursor(pages: seq<Page>, cursor: Option<Token>) {
    exists i {:trigger CursorOf(pages, i)} :: 0 <= i < |pages| && cursor == CursorOf(pages, i)
  }

  /** What the cache may hold between requests: page one, the true cursor of every known
      page that exists, and at no page a cursor that belongs nowhere. */
  ghost predicate CacheOk(pages: seq<Page>, cache: map<int, Option<Token>>) {
    && 1 in cache
    && (forall k {:trigger k in cache} :: k in cache && 1 <= k <= |pages| ==> cache[k] == CursorOf(pages, k - 1))
    && (forall k :: k in cache ==> KnownCursor(pages, cache[k]))
  }

  /** Following a cursor that belongs to some page leads to a page, with again such a cursor. */
  lemma FetchKnown(fetch: Fetcher, pages: seq<Page>, cursor: Option<Token>)
    requires Serves(fetch, pages) && KnownCursor(pages, cursor)
    ensures fetch(cursor) in pages && KnownCursor(pages, fetch(cursor).next)
  {
    var i :| 0 <= i < |pages| && cursor == CursorOf(pages, i);
    if i + 1 < |pages| {
      assert CursorOf(pages, i + 1) == pages[i].next;
    } else {
      assert CursorOf(pages, 0) == None;
    }
  }

  /** The largest known page before the requested one. */
  method NearestKnown(known: set<int>, target: int) returns (nearest: int)
    requires 1 in known && 1 < target
    ensures nearest in known && 1 <= nearest < target
    ensures forall k :: k in known && k < target ==> k <= nearest
  {
    nearest := target - 1;
    while nearest !in known
      invariant 1 <= nearest < target
      invariant forall k :: k in known && k < target ==> k <= nearest
      decreases nearest
    {
      nearest := nearest - 1;
    }
  }

  class Pager {
    var cursorByPage: map<int, Option<Token>>

    constructor (ghost pages: seq<Page>)
      requires pages != []
      ensures cursorByPage == map[1 := None] && CacheOk(pages, cursorByPage)
    {
      cursorByPage := map[1 := None];
      assert CursorOf(pages, 0) == None;
    }

    /** Fetching with the cursor held for page k and remembering what follows it. */
    method Visit(fetch: Fetcher, k: int, cursor: Option<Token>, ghost pages: seq<Page>) returns (data: Page)
      requires Serves(fetch, pages) && CacheOk(pages, cursorByPage) && 1 <= k && KnownCursor(pages, cursor)
      requires k <= |pages| ==> cursor == CursorOf(pages, k - 1)
      modifies this
      ensures CacheOk(pages, cursorByPage) && cursorByPage == old(cursorByPage)[k + 1 := data.next]
      ensures data in pages && (k <= |pages| ==> data == pages[k - 1])
      ensures KnownCursor(pages, data.next)
    {
      data := fetch(cursor);
      FetchKnown(fetch, pages, cursor);
      cursorByPage := cursorByPage[k + 1 := data.next];
    }

    /** `fetchCurrentPage`, from any state earlier requests may have left the cache in.  A page
        that exists is returned as it is, after as many fetches as it lies beyond the nearest
        known page; a request beyond the last page is answered with some existing page. */
    method FetchCurrentPage(fetch: Fetcher, page: int, ghost pages: seq<Page>) returns (data: Page, fetches: nat)
      requires Serves(fetch, pages) && CacheOk(pages, cursorByPage)
      modifies this
      ensures CacheOk(pages, cursorByPage)
      ensures data in pages
      ensures Max(1, page) <= |pages| ==> data == pages[Max(1, page) - 1]
      ensures Max(1, page) in old(cursorByPage) ==> fetches == 1
      ensures forall k :: k in old(cursorByPage) && k <= Max(1, page) ==> fetches <= Max(1, page) - k + 1
    {
      var target := Max(1, page);
      if target in cursorByPage {
        data := Visit(fetch, target, cursorByPage[target], pages);
        return data, 1;
      }
      var current := NearestKnown(cursorByPage.Keys, target);
      ghost var start := current;
      var cursor := cursorByPage[current];
      fetches := 0;
      while current < target
        invariant 1 <= start <= current <= target && fetches == current - start
        invariant CacheOk(pages, cursorByPage) && KnownCursor(pages, cursor)
        invariant current <= |pages| ==> cursor == CursorOf(pages, current - 1)
      {
        data := Visit(fetch, current, cursor, pages);
        fetches := fetches + 1;
        if data.next.None? {
          return;
        }
        cursor := data.next;
        current := current + 1;
      }
      data := Visit(fetch, target, cursor, pages);
      fetches := fetches + 1;
    }
  }

  // ----- Collecting all pages

  /** The rows of the first n pages. */
  function RowsOf(pages: seq<Page>, n: nat): seq<Row>
    requires n <= |pages|
  {
    if n == 0 then [] else RowsOf(pages, n - 1) + pages[n - 1].items
  }

  /** `collectAllPages` returns the rows of the first `maxPages` pages, always marked
      complete; without a single page it throws. */
  method CollectAllPages(fetch: Fetcher, maxPages: int, ghost pages: seq<Page>) returns (all: Option<Page>)
    requires Serves(fetch, pages)
    ensures all.None? <==> maxPages <= 0
    ensures all.Some? ==> all.value.items == RowsOf(pages, Min(maxPages, |pages|)) && !all.value.hasMore && all.value.next.None?
  {
    var combined: seq<Row> := [];
    var cursor: Option<Token> := None;
    var last: Option<Page> := None;
    var page := 0;
    while page < maxPages
      invariant 0 <= page < |pages| && (page <= maxPages || page == 0)
      invariant page == 0 <==> last.None?
      invariant combined == RowsOf(pages, page) && cursor == CursorOf(pages, page)
    {
      var data := fetch(cursor);
      last := Some(data);
      combined := combined + data.items;
      if !data.hasMore || data.next.None? {
        return Some(data.(items := combined, hasMore := false, next := None));
      }
      cursor := data.next;
      page := page + 1;
    }
    if last.None? {
      return None;
    }
    return Some(last.value.(items := combined, hasMore := false, next := None));
  }

  // ----- The pages a listing serves

  function PageCount(rows: nat, limit: nat): (n: nat)
    requires 0 < limit
    ensures 1 <= n
  {
    if rows <= limit then 1 else 1 + PageCount(rows - limit, limit)
  }

  /** The count is exact: page k is one of them if it is the first or rows are left for it. */
  lemma {:induction false} PageCountExact(rows: nat, limit: nat, k: int)
    requires 0 < limit && 1 <= k
    ensures k <= PageCount(rows, limit) <==> k == 1 || Offset(k, limit) < rows
    decreases rows
  {
    if 1 < k {
      NextOffset(k - 1, limit);
      if limit < rows {
        PageCountExact(rows - limit, limit, k - 1);
      }
    }
  }

  /** The k-th page of a listing with the cursor that follows it. */
  function ListingPage(ordered: seq<Row>, resolved: Resolved, limit: nat, k: int): Page {
    PaginatePage(ordered, limit, k, false).(next := CursorAt(ordered, resolved, limit, k + 1))
  }

  function ListingPages(ordered: seq<Row>, resolved: Resolved, limit: nat, n: nat): seq<Page> {
    seq(n, i requires 0 <= i < n => ListingPage(ordered, resolved, limit, i + 1))
  }

  /** A page request to an unchanged table. */
  function Fetch(items: seq<Row>, resolved: Resolved, limit: nat): Fetcher {
    cursor =>
      match PaginateSequence(items, resolved, limit, cursor)
      case Ok(page) => page
      case Err(_) => Page([], false, None, 0)
  }

  lemma ListingPageFacts(ordered: seq<Row>, resolved: Resolved, limit: nat, k: int)
    requires 0 < limit && Exists(ordered, limit, k)
    ensures var page := ListingPage(ordered, resolved, limit, k); var n := Offset(k, limit);
            && (page.hasMore <==> Exists(ordered, limit, k + 1)) && (page.hasMore <==> page.next.Some?)
            && page.items == ordered[n..Min(n + limit, |ordered|)] && Offset(k + 1, limit) == n + limit
            && (page.items == [] <==> ordered == [])
  {
    NextOffset(k, limit);
    OffsetPageIsSlice(ordered, limit, k);
  }

  lemma ListingServesAt(items: seq<Row>, resolved: Resolved, limit: nat, ordered: seq<Row>, k: int)
    requires Table(items) && HasId(resolved.fields) && 0 < limit
    requires ordered == SortRows(resolved.fields, items) && 1 <= k <= PageCount(|ordered|, limit)
    ensures Fetch(items, resolved, limit)(CursorAt(ordered, resolved, limit, k)) == ListingPage(ordered, resolved, limit, k)
  {
    PageCountExact(|ordered|, limit, k);
    CursorPageIsOffsetPage(items, resolved, limit, k, ordered);
  }

  lemma ListingPageLinks(ordered: seq<Row>, resolved: Resolved, limit: nat, k: int)
    requires 0 < limit && 1 <= k <= PageCount(|ordered|, limit)
    ensures var page := ListingPage(ordered, resolved, limit, k);
            page.hasMore == page.next.Some? == (k + 1 <= PageCount(|ordered|, limit))
    ensures CursorAt(ordered, resolved, limit, 1) == None
  {
    PageCountExact(|ordered|, limit, k);
    PageCountExact(|ordered|, limit, k + 1);
    ListingPageFacts(ordered, resolved, limit, k);
  }

  lemma ServedPage(fetch: Fetcher, ordered: seq<Row>, resolved: Resolved, limit: nat, n: nat, pages: seq<Page>, i: nat, cursor: Option<Token>)
    requires 0 < limit && i < n && pages == ListingPages(ordered, resolved, limit, n) && CursorOf(pages, i) == cursor
    requires fetch(cursor) == ListingPage(ordered, resolved, limit, i + 1)
    ensures fetch(CursorOf(pages, i)) == pages[i]
  {
  }

  lemma LinkedPage(ordered: seq<Row>, resolved: Resolved, limit: nat, n: nat, pages: seq<Page>, i: nat)
    requires 0 < limit && i < n == PageCount(|ordered|, limit) && pages == ListingPages(ordered, resolved, limit, n)
    ensures pages[i].hasMore == pages[i].next.Some? == (i + 1 < n) && CursorAt(ordered, resolved, limit, 1) == None
  {
    ListingPageLinks(ordered, resolved, limit, i + 1);
  }

  lemma ServedByCursor(items: seq<Row>, resolved: Resolved, limit: nat, ordered: seq<Row>, fetch: Fetcher, pages: seq<Page>, i: nat)
    requires Table(items) && HasId(resolved.fields) && 0 < limit && i < |pages|
    requires ordered == SortRows(resolved.fields, items) && fetch == Fetch(items, resolved, limit)
    requires pages == ListingPages(ordered, resolved, limit, PageCount(|ordered|, limit))
    ensures fetch(CursorOf(pages, i)) == pages[i]
  {
    LinkedPage(ordered, resolved, limit, |pages|, pages, i);
    ListingCursor(ordered, resolved, limit, |pages|, pages, i);
    ListingServesAt(items, resolved, limit, ordered, i + 1);
    ServedPage(fetch, ordered, resolved, limit, |pages|, pages, i, CursorAt(ordered, resolved, limit, i + 1));
  }

  /** An unchanged listing serves exactly its offset pages, so everything said about
      `FetchCurrentPage` and `CollectAllPages` holds of it. */
  lemma ListingServes(items: seq<Row>, resolved: Resolved, limit: nat, ordered: seq<Row>, fetch: Fetcher, pages: seq<Page>)
    requires Table(items) && HasId(resolved.fields) && 0 < limit
    requires ordered == SortRows(resolved.fields, items) && fetch == Fetch(items, resolved, limit)
    requires pages == ListingPages(ordered, resolved, limit, PageCount(|ordered|, limit))
    ensures Serves(fetch, pages)
  {
    forall i | 0 <= i < |pages|
      ensures pages[i].hasMore == pages[i].next.Some? == (i + 1 < |pages|)
    {
      LinkedPage(ordered, resolved, limit, |pages|, pages, i);
    }
    forall i {:trigger CursorOf(pages, i)} | 0 <= i < |pages|
      ensures fetch(CursorOf(pages, i)) == pages[i]
    {
      ServedByCursor(items, resolved, limit, ordered, fetch, pages, i);
    }
  }

  lemma ListingCursor(ordered: seq<Row>, resolved: Resolved, limit: nat, n: nat, pages: seq<Page>, i: nat)
    requires 0 < limit && i < n && pages == ListingPages(ordered, resolved, limit, n)
    requires CursorAt(ordered, resolved, limit, 1) == None
    ensures CursorOf(pages, i) == CursorAt(ordered, resolved, limit, i + 1)
  {
  }

  lemma ListedPageIsFull(ordered: seq<Row>, resolved: Resolved, limit: nat, k: int)
    requires 0 < limit && 1 <= k <= PageCount(|ordered|, limit)
    ensures ListingPage(ordered, resolved, limit, k).items == [] <==> ordered == []
  {
    PageCountExact(|ordered|, limit, k);
    ListingPageFacts(ordered, resolved, limit, k);
  }

  lemma ListedPagesAreFull(ordered: seq<Row>, resolved: Resolved, limit: nat, n: nat, data: Page)
    requires 0 < limit && n == PageCount(|ordered|, limit) && data in ListingPages(ordered, resolved, limit, n)
    ensures data.items == [] <==> ordered == []
  {
    var i :| 0 <= i < n && ListingPages(ordered, resolved, limit, n)[i] == data;
    ListedPageIsFull(ordered, resolved, limit, i + 1);
  }

  lemma BeyondIsEmpty(ordered: seq<Row>, limit: nat, page: int)
    requires 0 < limit && PageCount(|ordered|, limit) < page
    ensures PaginatePage(ordered, limit, page, false).items == []
  {
    PageCountExact(|ordered|, limit, page);
  }

  /** So the page the pager returns has the rows of the offset page asked for exactly when
      that page exists, or nothing is listed at all; beyond the end it shows some other page. */
  lemma PagerAgreesIff(ordered: seq<Row>, resolved: Resolved, limit: nat, n: nat, page: int, data: Page)
    requires 0 < limit && n == PageCount(|ordered|, limit)
    requires data in ListingPages(ordered, resolved, limit, n)
    requires Max(1, page) <= n ==> data == ListingPages(ordered, resolved, limit, n)[Max(1, page) - 1]
    ensures data.items == PaginatePage(ordered, limit, page, false).items <==> Max(1, page) <= n || ordered == []
  {
    ListedPagesAreFull(ordered, resolved, limit, n, data);
    if n < page {
      BeyondIsEmpty(ordered, limit, page);
    } else {
      assert Offset(page, limit) == Offset(Max(1, page), limit);
    }
  }

  lemma NextSlice(ordered: seq<Row>, k: nat, limit: nat)
    requires k <= |ordered|
    ensures ordered[..k] + ordered[k..Min(k + limit, |ordered|)] == ordered[..Min(k + limit, |ordered|)]
  {
  }

  lemma {:induction false} CollectedRows(ordered: seq<Row>, resolved: Resolved, limit: nat, n: nat, m: nat)
    requires 0 < limit && n == PageCount(|ordered|, limit) && m <= n
    ensures RowsOf(ListingPages(ordered, resolved, limit, n), m) == ordered[..Min(Offset(m + 1, limit), |ordered|)]
  {
    if m > 0 {
      CollectedRows(ordered, resolved, limit, n, m - 1);
      PageCountExact(|ordered|, limit, m);
      ListingPageFacts(ordered, resolved, limit, m);
      NextSlice(ordered, Offset(m, limit), limit);
    }
  }

  /** Collecting up to `maxPages` pages gives the whole listing exactly when it has no more. */
  lemma CollectedAllIff(ordered: seq<Row>, resolved: Resolved, limit: nat, n: nat, maxPages: nat)
    requires 0 < limit && n == PageCount(|ordered|, limit) && 0 < maxPages
    ensures RowsOf(ListingPages(ordered, resolved, limit, n), Min(maxPages, n)) == ordered <==> n <= maxPages
  {
    var m := Min(maxPages, n);
    CollectedRows(ordered, resolved, limit, n, m);
    PageCountExact(|ordered|, limit, m + 1);
  }

  // ----- One list of all pages

  function Flat<T>(pages: seq<seq<T>>): seq<T> {
    if pages == [] then [] else Flat(pages[..|pages| - 1]) + pages[|pages| - 1]
  }

  /** Where a key first occurs, the length if it does not. */
  function FirstWith<T>(items: seq<T>, key: T -> string, k: string): (i: nat)
    ensures i <= |items|
    ensures i < |items| ==> key(items[i]) == k
    ensures forall j :: 0 <= j < i ==> key(items[j]) != k
  {
    if items == [] then 0
    else
      var i := FirstWith(items[..|items| - 1], key, k);
      if i < |items| - 1 || key(items[|items| - 1]) == k then i else |items|
  }

  /** The last item of a key. */
  function LastWith<T>(items: seq<T>, key: T -> string, k: string): Option<T> {
    if items == [] then None
    else if key(items[|items| - 1]) == k then Some(items[|items| - 1])
    else LastWith(items[..|items| - 1], key, k)
  }

  /** Each key once, where it first occurred, with its last item. */
  ghost predicate IsFlattened<T(!new)>(items: seq<T>, key: T -> string, combined: seq<T>) {
    && (forall i, j :: 0 <= i < j < |combined| ==> FirstWith(items, key, key(combined[i])) < FirstWith(items, key, key(combined[j])))
    && (forall i :: 0 <= i < |combined| ==> LastWith(items, key, key(combined[i])) == Some(combined[i]))
    && (forall k :: FirstWith(items, key, k) < |items| ==> HasKey(combined, key, k))
  }

  predicate HasKey<T>(combined: seq<T>, key: T -> string, k: string) {
    exists i :: 0 <= i < |combined| && key(combined[i]) == k
  }

  lemma FirstOfSnoc<T>(items: seq<T>, item: T, key: T -> string, k: string)
    ensures var i := FirstWith(items, key, k);
            FirstWith(items + [item], key, k) == if i < |items| || key(item) == k then i else |items| + 1
    ensures LastWith(items + [item], key, k) == if key(item) == k then Some(item) else LastWith(items, key, k)
  {
    assert (items + [item])[..|items|] == items;
  }

  lemma {:induction false} LastIsSomewhere<T>(items: seq<T>, key: T -> string, k: string)
    ensures LastWith(items, key, k).Some? ==> key(LastWith(items, key, k).value) == k && FirstWith(items, key, k) < |items|
  {
    if items != [] {
      LastIsSomewhere(items[..|items| - 1], key, k);
    }
  }

  lemma KeysCovered<T(!new)>(items: seq<T>, key: T -> string, combined: seq<T>, item: T, all: seq<T>)
    requires forall k :: FirstWith(items, key, k) < |items| ==> HasKey(combined, key, k)
    requires HasKey(all, key, key(item)) && forall k :: HasKey(combined, key, k) ==> HasKey(all, key, k)
    ensures forall k :: FirstWith(items + [item], key, k) < |items + [item]| ==> HasKey(all, key, k)
  {
    forall k
      ensures FirstWith(items + [item], key, k) < |items + [item]| ==> HasKey(all, key, k)
    {
      FirstOfSnoc(items, item, key, k);
    }
  }

  lemma HasKeyOfSnoc<T(!new)>(combined: seq<T>, key: T -> string, item: T)
    ensures forall k :: HasKey(combined + [item], key, k) <==> HasKey(combined, key, k) || key(item) == k
  {
    var all := combined + [item];
    forall k
      ensures HasKey(all, key, k) <==> HasKey(combined, key, k) || key(item) == k
    {
      if i :| 0 <= i < |combined| && key(combined[i]) == k {
        assert key(all[i]) == k;
      }
      assert all[|combined|] == item;
    }
  }

  lemma FlattenNew<T(!new)>(items: seq<T>, key: T -> string, combined: seq<T>, item: T)
    requires IsFlattened(items, key, combined) && !HasKey(combined, key, key(item))
    ensures IsFlattened(items + [item], key, combined + [item])
  {
    var all, more := combined + [item], items + [item];
    HasKeyOfSnoc(combined, key, item);
    KeysCovered(items, key, combined, item, all);
    OldEntries(items, key, combined, item, more);
    NewEntry(items, key, combined, item);
  }

  lemma OldEntries<T(!new)>(items: seq<T>, key: T -> string, combined: seq<T>, item: T, more: seq<T>)
    requires IsFlattened(items, key, combined) && !HasKey(combined, key, key(item)) && more == items + [item]
    ensures forall i :: 0 <= i < |combined| ==>
      FirstWith(more, key, key(combined[i])) == FirstWith(items, key, key(combined[i])) < |items|
    ensures forall i :: 0 <= i < |combined| ==> LastWith(more, key, key(combined[i])) == Some(combined[i])
  {
    forall i | 0 <= i < |combined|
      ensures FirstWith(more, key, key(combined[i])) == FirstWith(items, key, key(combined[i])) < |items|
      ensures LastWith(more, key, key(combined[i])) == Some(combined[i])
    {
      OldEntry(items, key, item, combined[i]);
    }
  }

  lemma OldEntry<T(!new)>(items: seq<T>, key: T -> string, item: T, kept: T)
    requires LastWith(items, key, key(kept)) == Some(kept) && key(kept) != key(item)
    ensures FirstWith(items + [item], key, key(kept)) == FirstWith(items, key, key(kept)) < |items|
    ensures LastWith(items + [item], key, key(kept)) == Some(kept)
  {
    LastIsSomewhere(items, key, key(kept));
    FirstOfSnoc(items, item, key, key(kept));
  }

  lemma NewEntry<T(!new)>(items: seq<T>, key: T -> string, combined: seq<T>, item: T)
    requires forall k :: FirstWith(items, key, k) < |items| ==> HasKey(combined, key, k)
    requires !HasKey(combined, key, key(item))
    ensures FirstWith(items + [item], key, key(item)) == |items| && LastWith(items + [item], key, key(item)) == Some(item)
  {
    FirstOfSnoc(items, item, key, key(item));
  }

  lemma SameKeys<T(!new)>(combined: seq<T>, key: T -> string, item: T, at: nat)
    requires at < |combined| && key(combined[at]) == key(item)
    ensures forall k :: HasKey(combined, key, k) ==> HasKey(combined[at := item], key, k)
    ensures HasKey(combined[at := item], key, key(item))
  {
    var all := combined[at := item];
    forall k
      ensures HasKey(combined, key, k) ==> HasKey(all, key, k)
    {
      if i :| 0 <= i < |combined| && key(combined[i]) == k {
        assert key(all[i]) == k;
      }
    }
    assert key(all[at]) == key(item);
  }

  lemma FlattenOld<T(!new)>(items: seq<T>, key: T -> string, combined: seq<T>, item: T, at: nat)
    requires IsFlattened(items, key, combined) && at < |combined| && key(combined[at]) == key(item)
    ensures IsFlattened(items + [item], key, combined[at := item])
  {
    var all := combined[at := item];
    SameKeys(combined, key, item, at);
    KeysCovered(items, key, combined, item, all);
    forall i | 0 <= i < |combined|
      ensures key(all[i]) == key(combined[i]) && FirstWith(items + [item], key, key(all[i])) == FirstWith(items, key, key(combined[i]))
      ensures LastWith(items + [item], key, key(all[i])) == Some(all[i])
    {
      LastIsSomewhere(items, key, key(combined[i]));
      FirstOfSnoc(items, item, key, key(combined[i]));
      if i < at {
        assert FirstWith(items, key, key(combined[i])) < FirstWith(items, key, key(combined[at]));
      } else if at < i {
        assert FirstWith(items, key, key(combined[at])) < FirstWith(items, key, key(combined[i]));
      }
    }
  }

  /** What the memo's map knows: the place of every key. */
  ghost predicate IsIndex<T>(index: map<string, nat>, combined: seq<T>, key: T -> string) {
    && (forall k :: k in index ==> index[k] < |combined| && key(combined[index[k]]) == k)
    && (forall i :: 0 <= i < |combined| ==> key(combined[i]) in index)
  }

  /** One item of the fold: a later item with a known key takes the earlier one's place. */
  method PlaceItem<T(!new)>(ghost items: seq<T>, combined0: seq<T>, index0: map<string, nat>, key: T -> string, item: T)
    returns (combined: seq<T>, index: map<string, nat>)
    requires IsFlattened(items, key, combined0) && IsIndex(index0, combined0, key)
    ensures IsFlattened(items + [item], key, combined) && IsIndex(index, combined, key)
  {
    if key(item) in index0 {
      FlattenOld(items, key, combined0, item, index0[key(item)]);
      return combined0[index0[key(item)] := item], index0;
    }
    FlattenNew(items, key, combined0, item);
    return combined0 + [item], index0[key(item) := |combined0|];
  }

  lemma NextItem<T>(before: seq<T>, page: seq<T>, n: nat)
    requires n < |page|
    ensures before + page[..n + 1] == before + page[..n] + [page[n]]
  {
  }

  /** The fold of `useFlattenedPages`. */
  method FlattenPages<T(!new)>(pages: seq<seq<T>>, key: T -> string) returns (combined: seq<T>)
    ensures IsFlattened(Flat(pages), key, combined)
  {
    combined := [];
    var index: map<string, nat> := map[];
    for p := 0 to |pages|
      invariant IsFlattened(Flat(pages[..p]), key, combined) && IsIndex(index, combined, key)
    {
      ghost var before := Flat(pages[..p]);
      var page := pages[p];
      assert before + page[..0] == before;
      for n := 0 to |page|
        invariant IsFlattened(before + page[..n], key, combined) && IsIndex(index, combined, key)
      {
        NextItem(before, page, n);
        combined, index := PlaceItem(before + page[..n], combined, index, key, page[n]);
      }
      assert pages[..p + 1][..p] == pages[..p] && page[..|page|] == page;
    }
    assert pages[..|pages|] == pages;
  }
}
