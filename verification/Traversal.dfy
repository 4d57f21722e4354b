/** Reading a listing to its end by following cursors, while rows come and go between pages. */
module Traversal {
  import opened Wrappers
  import opened Listing
  import opened Pagination

  /** The pages a client reads, the i-th from the i-th state of the table. */
  function Walk(tables: seq<seq<Row>>, resolved: Resolved, limit: nat, cursor: Option<Token>): seq<Page> {
    if tables == [] then []
    else match PaginateSequence(tables[0], resolved, limit, cursor)
      case Err(_) => []
      case Ok(page) => [page] + if page.next.Some? then Walk(tables[1..], resolved, limit, page.next) else []
  }

  /** The walk reached a page without a successor. */
  predicate Completed(pages: seq<Page>) {
    pages != [] && pages[|pages| - 1].next == None
  }

  function Emitted(pages: seq<Page>): seq<Row> {
    if pages == [] then [] else pages[0].items + Emitted(pages[1..])
  }

  /** The row at which a walk resumes: none at the start, else the last row it was given. */
  predicate After(fields: seq<Field>, last: Option<Row>, x: Row) {
    last.None? || Cmp(fields, x, last.value) == 1
  }

  function TokenOf(resolved: Resolved, last: Option<Row>): Option<Token> {
    if last.None? then None else Some(Token(resolved.tokens, Key(resolved.fields, last.value)))
  }

  function TailFrom(ordered: seq<Row>, fields: seq<Field>, last: Option<Row>): seq<Row> {
    if last.None? then ordered else ordered[StartIndex(ordered, Key(fields, last.value), fields)..]
  }

  /** One page of a walk: the first rows after the resumption point, or all of them. */
  lemma OnePage(table: seq<Row>, resolved: Resolved, limit: nat, last: Option<Row>)
    requires Table(table) && HasId(resolved.fields) && 0 < limit
    ensures var ordered := SortRows(resolved.fields, table); var tail := TailFrom(ordered, resolved.fields, last);
            PaginateSequence(table, resolved, limit, TokenOf(resolved, last)) == Ok(PageOf(tail, resolved, limit, |table|))
  {
    SortIsStrict(resolved.fields, table);
    FirstPage(table, resolved, limit);
    if last.Some? {
      KeyLength(resolved.fields, last.value);
      ParseOwnKey(resolved.fields, last.value);
    }
  }

  lemma SameRows(table: seq<Row>, fields: seq<Field>)
    ensures forall x :: x in SortRows(fields, table) <==> x in table
  {
    var ordered := SortRows(fields, table);
    SortSorts(fields, table);
    forall x
      ensures x in ordered <==> x in table
    {
      assert x in ordered <==> x in multiset(ordered);
      assert x in table <==> x in multiset(table);
    }
  }

  lemma TailOf(ordered: seq<Row>, fields: seq<Field>, last: Option<Row>, tail: seq<Row>)
    requires StrictlySorted(fields, ordered) && tail == TailFrom(ordered, fields, last)
    ensures StrictlySorted(fields, tail) && forall x :: x in tail <==> x in ordered && After(fields, last, x)
  {
    if last.Some? {
      TailIsAfter(ordered, fields, last.value);
      var m := StartIndex(ordered, Key(fields, last.value), fields);
      forall x
        ensures x in tail <==> x in ordered && After(fields, last, x)
      {
        if x in ordered && After(fields, last, x) {
          var i :| 0 <= i < |ordered| && ordered[i] == x;
          assert tail[i - m] == x;
        }
      }
    }
  }

  lemma TailRows(table: seq<Row>, fields: seq<Field>, last: Option<Row>, tail: seq<Row>)
    requires Table(table) && HasId(fields) && tail == TailFrom(SortRows(fields, table), fields, last)
    ensures StrictlySorted(fields, tail) && forall x :: x in tail <==> x in table && After(fields, last, x)
  {
    SortIsStrict(fields, table);
    SameRows(table, fields);
    TailOf(SortRows(fields, table), fields, last, tail);
  }

  ghost predicate HoldsKey(table: seq<Row>, fields: seq<Field>, x: Row) {
    exists y :: y in table && Key(fields, y) == Key(fields, x)
  }

  ghost predicate Tables(tables: seq<seq<Row>>) {
    forall i :: 0 <= i < |tables| ==> Table(tables[i])
  }

  ghost predicate PresentThroughout(tables: seq<seq<Row>>, fields: seq<Field>, x: Row) {
    forall i :: 0 <= i < |tables| ==> HoldsKey(tables[i], fields, x)
  }

  /** Appending a walk's rest to its first page keeps the strict order. */
  lemma JoinSorted(fields: seq<Field>, page: seq<Row>, rest: seq<Row>)
    requires page != [] && StrictlySorted(fields, page) && StrictlySorted(fields, rest)
    requires forall x :: x in rest ==> Cmp(fields, x, page[|page| - 1]) == 1
    ensures StrictlySorted(fields, page + rest)
  {
    forall i, j | 0 <= i < |page| && 0 <= j < |rest|
      ensures Cmp(fields, page[i], rest[j]) < 0
    {
      var last := page[|page| - 1];
      CmpLaws(fields, rest[j], last, last);
      CmpLaws(fields, last, last, last);
      assert rest[j] in rest;
      assert Cmp(fields, page[i], last) <= 0;
      CmpLaws(fields, page[i], last, rest[j]);
    }
  }

  lemma FullPage(tail: seq<Row>, resolved: Resolved, limit: nat, total: nat)
    requires 0 < limit
    ensures var page := PageOf(tail, resolved, limit, total);
            && page.items <= tail
            && (page.next.None? ==> page.items == tail)
            && (page.next.Some? ==> page.items != [] && page.next == TokenOf(resolved, Some(page.items[|page.items| - 1])))
  {
    PageOfTail(tail, resolved, limit, 0, total);
    assert tail[0..] == tail;
  }

  lemma RestAfter(fields: seq<Field>, last: Option<Row>, end: Row, rest: seq<Row>)
    requires After(fields, last, end) && forall x :: x in rest ==> Cmp(fields, x, end) == 1
    ensures forall x :: x in rest ==> After(fields, last, x)
  {
    forall x | x in rest && last.Some?
      ensures Cmp(fields, x, last.value) == 1
    {
      CmpLaws(fields, x, end, end);
      CmpLaws(fields, end, last.value, last.value);
      CmpLaws(fields, last.value, end, x);
      CmpLaws(fields, last.value, x, x);
    }
  }

  lemma SameKeySamePlace(fields: seq<Field>, x: Row, y: Row, z: Row)
    requires Key(fields, x) == Key(fields, y)
    ensures Cmp(fields, x, z) == Cmp(fields, y, z)
  {
  }

  lemma FoundOnPage(tables: seq<seq<Row>>, fields: seq<Field>, last: Option<Row>, tail: seq<Row>)
    requires tables != [] && forall x :: x in tail <==> x in tables[0] && After(fields, last, x)
    ensures forall x :: PresentThroughout(tables, fields, x) && After(fields, last, x) ==> HoldsKey(tail, fields, x)
  {
    forall x | PresentThroughout(tables, fields, x) && After(fields, last, x)
      ensures HoldsKey(tail, fields, x)
    {
      assert HoldsKey(tables[0], fields, x);
      var y :| y in tables[0] && Key(fields, y) == Key(fields, x);
      assert y in tail;
    }
  }

  /** A key present throughout is on this page, or after its end and so still to come. */
  lemma FoundNowOrLater(tables: seq<seq<Row>>, fields: seq<Field>, last: Option<Row>, tail: seq<Row>, page: seq<Row>, rest: seq<Row>, x: Row)
    requires tables != [] && page != [] && page <= tail && StrictlySorted(fields, tail)
    requires PresentThroughout(tables, fields, x) && HoldsKey(tail, fields, x)
    requires Cmp(fields, x, page[|page| - 1]) == 1 && PresentThroughout(tables[1..], fields, x) ==> HoldsKey(rest, fields, x)
    ensures HoldsKey(page + rest, fields, x)
  {
    var y :| y in tail && Key(fields, y) == Key(fields, x);
    var i :| 0 <= i < |tail| && tail[i] == y;
    if i < |page| {
      assert page[i] == y && y in page + rest;
    } else {
      var end := page[|page| - 1];
      assert end == tail[|page| - 1];
      CmpLaws(fields, end, y, y);
      SameKeySamePlace(fields, x, y, end);
      forall j | 0 <= j < |tables[1..]|
        ensures HoldsKey(tables[1..][j], fields, x)
      {
        assert HoldsKey(tables[j + 1], fields, x);
      }
      var z :| z in rest && Key(fields, z) == Key(fields, x);
      assert z in page + rest;
    }
  }

  /** What a walk from a resumption point promises: rows after that point in strictly
      increasing order, none twice; and if it completes, every key that was there at every
      page and lies after the point. */
  ghost predicate Faithful(tables: seq<seq<Row>>, fields: seq<Field>, last: Option<Row>, pages: seq<Page>) {
    var rows := Emitted(pages);
    && StrictlySorted(fields, rows)
    && (forall x :: x in rows ==> After(fields, last, x))
    && (Completed(pages) ==> forall x :: PresentThroughout(tables, fields, x) && After(fields, last, x) ==> HoldsKey(rows, fields, x))
  }

  lemma LastPage(tables: seq<seq<Row>>, fields: seq<Field>, last: Option<Row>, page: Page)
    requires tables != [] && StrictlySorted(fields, page.items)
    requires forall x :: x in page.items <==> x in tables[0] && After(fields, last, x)
    ensures Faithful(tables, fields, last, [page])
  {
    assert [page][1..] == [];
    assert Emitted([page]) == page.items;
    FoundOnPage(tables, fields, last, page.items);
  }

  /** A key present throughout that is not before this page is on it or still to come. */
  lemma CompletedMore(tables: seq<seq<Row>>, fields: seq<Field>, last: Option<Row>, tail: seq<Row>, page: seq<Row>, rest: seq<Row>)
    requires tables != [] && StrictlySorted(fields, tail)
    requires forall x :: x in tail <==> x in tables[0] && After(fields, last, x)
    requires page != [] && page <= tail
    requires forall x :: PresentThroughout(tables[1..], fields, x) && After(fields, Some(page[|page| - 1]), x) ==> HoldsKey(rest, fields, x)
    ensures forall x :: PresentThroughout(tables, fields, x) && After(fields, last, x) ==> HoldsKey(page + rest, fields, x)
  {
    FoundOnPage(tables, fields, last, tail);
    forall x | PresentThroughout(tables, fields, x) && After(fields, last, x)
      ensures HoldsKey(page + rest, fields, x)
    {
      FoundNowOrLater(tables, fields, last, tail, page, rest, x);
    }
  }

  lemma MorePages(tables: seq<seq<Row>>, fields: seq<Field>, last: Option<Row>, tail: seq<Row>, page: Page, rest: seq<Page>)
    requires tables != [] && StrictlySorted(fields, tail)
    requires forall x :: x in tail <==> x in tables[0] && After(fields, last, x)
    requires page.items != [] && page.items <= tail && page.next.Some?
    requires Faithful(tables[1..], fields, Some(page.items[|page.items| - 1]), rest)
    ensures Faithful(tables, fields, last, [page] + rest)
  {
    var pages := [page] + rest;
    var end := page.items[|page.items| - 1];
    assert pages[1..] == rest;
    assert Emitted(pages) == page.items + Emitted(rest);
    assert end in tail;
    JoinSorted(fields, page.items, Emitted(rest));
    RestAfter(fields, last, end, Emitted(rest));
    if Completed(pages) {
      assert Completed(rest);
      CompletedMore(tables, fields, last, tail, page.items, Emitted(rest));
    }
  }

  lemma WalkCons(tables: seq<seq<Row>>, resolved: Resolved, limit: nat, last: Option<Row>, page: Page)
    requires Tables(tables) && tables != [] && HasId(resolved.fields) && 0 < limit
    requires page == PageOf(TailFrom(SortRows(resolved.fields, tables[0]), resolved.fields, last), resolved, limit, |tables[0]|)
    ensures Walk(tables, resolved, limit, TokenOf(resolved, last))
         == [page] + if page.next.None? then [] else Walk(tables[1..], resolved, limit, page.next)
  {
    OnePage(tables[0], resolved, limit, last);
  }

  lemma {:induction false} WalkFrom(tables: seq<seq<Row>>, resolved: Resolved, limit: nat, last: Option<Row>)
    requires Tables(tables) && HasId(resolved.fields) && 0 < limit
    ensures Faithful(tables, resolved.fields, last, Walk(tables, resolved, limit, TokenOf(resolved, last)))
    decreases |tables|
  {
    if tables != [] {
      var fields := resolved.fields;
      var tail := TailFrom(SortRows(fields, tables[0]), fields, last);
      var page := PageOf(tail, resolved, limit, |tables[0]|);
      WalkCons(tables, resolved, limit, last, page);
      TailRows(tables[0], fields, last, tail);
      FullPage(tail, resolved, limit, |tables[0]|);
      if page.next.None? {
        assert [page] + [] == [page];
        LastPage(tables, fields, last, page);
      } else {
        var end := page.items[|page.items| - 1];
        WalkFrom(tables[1..], resolved, limit, Some(end));
        MorePages(tables, fields, last, tail, page, Walk(tables[1..], resolved, limit, page.next));
      }
    }
  }

  /** Traversal under change.  However the table changes between pages, the rows of a walk
      are strictly increasing in the requested order; and when it completes, every key that
      was there at each page is returned exactly once. */
  lemma {:induction false} TraversalSkipsAndRepeatsNothing(tables: seq<seq<Row>>, resolved: Resolved, limit: nat, x: Row)
    requires Tables(tables) && HasId(resolved.fields) && 0 < limit
    ensures var fields := resolved.fields; var pages := Walk(tables, resolved, limit, None); var rows := Emitted(pages);
            && StrictlySorted(fields, rows)
            && (forall i, j :: 0 <= i < |rows| && 0 <= j < |rows| && Key(fields, rows[i]) == Key(fields, rows[j]) ==> i == j)
            && (Completed(pages) && PresentThroughout(tables, fields, x) ==>
                  exists i :: 0 <= i < |rows| && Key(fields, rows[i]) == Key(fields, x))
  {
    var fields := resolved.fields;
    var pages := Walk(tables, resolved, limit, None);
    var rows := Emitted(pages);
    WalkFrom(tables, resolved, limit, None);
    forall i, j | 0 <= i < |rows| && 0 <= j < |rows| && Key(fields, rows[i]) == Key(fields, rows[j])
      ensures i == j
    {
      CmpLaws(fields, rows[i], rows[j], rows[j]);
    }
    if Completed(pages) && PresentThroughout(tables, fields, x) {
      assert HoldsKey(rows, fields, x);
      var y :| y in rows && Key(fields, y) == Key(fields, x);
      var i :| 0 <= i < |rows| && rows[i] == y;
    }
  }

  // ----- Unchanged data

  function Repeat(table: seq<Row>, n: nat): seq<seq<Row>> {
    if n == 0 then [] else [table] + Repeat(table, n - 1)
  }

  /** The rows n pages have room for. */
  function RoomFor(n: nat, limit: nat): nat {
    if n == 0 then 0 else limit + RoomFor(n - 1, limit)
  }

  lemma RoomLeft(n: nat, limit: nat, left: int)
    requires limit < left <= RoomFor(n, limit)
    ensures 1 < n && left - limit <= RoomFor(n - 1, limit)
  {
  }

  lemma {:induction false} RoomIsProduct(n: nat, limit: nat)
    ensures RoomFor(n, limit) == n * limit
  {
    if n > 0 {
      RoomIsProduct(n - 1, limit);
    }
  }

  /** The page of an unchanged table after its first m rows. */
  lemma StaticPage(table: seq<Row>, resolved: Resolved, limit: nat, m: nat)
    requires Table(table) && HasId(resolved.fields) && 0 < limit && (m < |table| || m == 0)
    ensures |SortRows(resolved.fields, table)| == |table|
    ensures var ordered := SortRows(resolved.fields, table);
            PaginateSequence(table, resolved, limit, TokenOf(resolved, RowBefore(ordered, m)))
            == Ok(PageOf(ordered[m..], resolved, limit, |table|))
  {
    var ordered := SortRows(resolved.fields, table);
    SortIsStrict(resolved.fields, table);
    OnePage(table, resolved, limit, RowBefore(ordered, m));
    if m == 0 {
      assert ordered[0..] == ordered;
    } else {
      ResumeAfter(ordered, resolved.fields, m);
    }
  }

  function RowBefore(ordered: seq<Row>, m: nat): Option<Row>
    requires m <= |ordered|
  {
    if m == 0 then None else Some(ordered[m - 1])
  }

  lemma EmittedCons(page: Page, rest: seq<Page>)
    ensures Emitted([page] + rest) == page.items + Emitted(rest)
    ensures rest == [] ==> (Completed([page] + rest) <==> page.next == None)
    ensures rest != [] ==> (Completed([page] + rest) <==> Completed(rest))
  {
    assert ([page] + rest)[1..] == rest;
  }

  lemma SplitTail<T>(s: seq<T>, m: nat, k: nat)
    requires m <= k <= |s|
    ensures s[m..] == s[m..k] + s[k..]
  {
  }

  /** Pages that cut up the rows from m on. */
  predicate Chain(ordered: seq<Row>, limit: nat, m: nat, pages: seq<Page>)
    decreases |pages|
  {
    && pages != [] && m <= |ordered|
    && if m + limit < |ordered|
       then pages[0].items == ordered[m..m + limit] && pages[0].next.Some? && Chain(ordered, limit, m + limit, pages[1..])
       else pages[0].items == ordered[m..] && pages[0].next.None? && |pages| == 1
  }

  lemma {:induction false} ChainEmits(ordered: seq<Row>, limit: nat, m: nat, pages: seq<Page>)
    requires Chain(ordered, limit, m, pages)
    ensures Completed(pages) && Emitted(pages) == ordered[m..]
    decreases |pages|
  {
    assert pages == [pages[0]] + pages[1..];
    EmittedCons(pages[0], pages[1..]);
    if m + limit < |ordered| {
      ChainEmits(ordered, limit, m + limit, pages[1..]);
      SplitTail(ordered, m, m + limit);
    }
  }

  /** The walks over one table, by the number of pages allowed and the row they start after. */
  type Walks = (nat, Option<Row>) -> seq<Page>

  /** The walk from the m-th row on begins with the rows from there, and goes on after them. */
  ghost predicate GoesOn(walks: Walks, ordered: seq<Row>, limit: nat, m: nat, n: nat)
    requires m <= |ordered| && 0 < n
  {
    var pages := walks(n, RowBefore(ordered, m));
    && pages != []
    && if m + limit < |ordered|
       then pages[0].items == ordered[m..m + limit] && pages[0].next.Some? && pages[1..] == walks(n - 1, RowBefore(ordered, m + limit))
       else pages[0].items == ordered[m..] && pages[0].next.None? && |pages| == 1
  }

  ghost predicate AllGoOn(walks: Walks, ordered: seq<Row>, limit: nat) {
    forall m, n {:trigger GoesOn(walks, ordered, limit, m, n)} :: 0 <= m <= |ordered| && 0 < n && (m < |ordered| || m == 0) ==>
      GoesOn(walks, ordered, limit, m, n)
  }

  lemma {:induction false} WalksChain(walks: Walks, ordered: seq<Row>, limit: nat, m: nat, n: nat)
    requires AllGoOn(walks, ordered, limit) && 0 < limit && (m < |ordered| || m == 0) && 0 < n && |ordered| - m <= RoomFor(n, limit)
    ensures Chain(ordered, limit, m, walks(n, RowBefore(ordered, m)))
    decreases n
  {
    assert GoesOn(walks, ordered, limit, m, n);
    if m + limit < |ordered| {
      RoomLeft(n, limit, |ordered| - m);
      WalksChain(walks, ordered, limit, m + limit, n - 1);
    }
  }

  /** The page at the m-th row, cut off the walk from there. */
  lemma WalkBegins(table: seq<Row>, resolved: Resolved, limit: nat, cursor: Option<Token>, page: Page, n: nat)
    requires 0 < n && PaginateSequence(table, resolved, limit, cursor) == Ok(page)
    ensures Walk(Repeat(table, n), resolved, limit, cursor)
         == [page] + if page.next.Some? then Walk(Repeat(table, n - 1), resolved, limit, page.next) else []
  {
    assert Repeat(table, n)[1..] == Repeat(table, n - 1);
  }

  lemma PageGoesOn(walks: Walks, ordered: seq<Row>, resolved: Resolved, limit: nat, m: nat, n: nat, page: Page)
    requires 0 < n && 0 < limit && m <= |ordered| && page == PageOf(ordered[m..], resolved, limit, |ordered|)
    requires walks(n, RowBefore(ordered, m))
          == [page] + if m + limit < |ordered| then walks(n - 1, RowBefore(ordered, m + limit)) else []
    ensures GoesOn(walks, ordered, limit, m, n)
  {
    PageOfTail(ordered, resolved, limit, m, |ordered|);
  }

  /** A walk over an unchanged table goes on from each row. */
  lemma WalkGoesOn(table: seq<Row>, resolved: Resolved, limit: nat, ordered: seq<Row>, walks: Walks, m: nat, n: nat)
    requires Table(table) && HasId(resolved.fields) && 0 < limit && ordered == SortRows(resolved.fields, table)
    requires m <= |ordered| && (m < |ordered| || m == 0) && 0 < n && |ordered| == |table|
    requires forall k: nat, last :: walks(k, last) == Walk(Repeat(table, k), resolved, limit, TokenOf(resolved, last))
    ensures GoesOn(walks, ordered, limit, m, n)
  {
    var page := PageOf(ordered[m..], resolved, limit, |ordered|);
    StaticPage(table, resolved, limit, m);
    WalkBegins(table, resolved, limit, TokenOf(resolved, RowBefore(ordered, m)), page, n);
    NextOfPage(ordered, resolved, limit, m, page);
    PageGoesOn(walks, ordered, resolved, limit, m, n, page);
  }

  lemma NextOfPage(ordered: seq<Row>, resolved: Resolved, limit: nat, m: nat, page: Page)
    requires 0 < limit && m <= |ordered| && page == PageOf(ordered[m..], resolved, limit, |ordered|)
    ensures page.next == if m + limit < |ordered| then TokenOf(resolved, RowBefore(ordered, m + limit)) else None
  {
    PageOfTail(ordered, resolved, limit, m, |ordered|);
  }

  lemma AllWalksGoOn(table: seq<Row>, resolved: Resolved, limit: nat, ordered: seq<Row>, walks: Walks)
    requires Table(table) && HasId(resolved.fields) && 0 < limit && ordered == SortRows(resolved.fields, table)
    requires |ordered| == |table|
    requires forall k: nat, last :: walks(k, last) == Walk(Repeat(table, k), resolved, limit, TokenOf(resolved, last))
    ensures AllGoOn(walks, ordered, limit)
  {
    forall m, k {:trigger GoesOn(walks, ordered, limit, m, k)} | 0 <= m <= |ordered| && 0 < k && (m < |ordered| || m == 0)
      ensures GoesOn(walks, ordered, limit, m, k)
    {
      WalkGoesOn(table, resolved, limit, ordered, walks, m, k);
    }
  }

  lemma WholeWalk(walks: Walks, ordered: seq<Row>, limit: nat, n: nat)
    requires AllGoOn(walks, ordered, limit) && 0 < limit && 0 < n && |ordered| <= RoomFor(n, limit)
    ensures Completed(walks(n, None)) && Emitted(walks(n, None)) == ordered
  {
    WalksChain(walks, ordered, limit, 0, n);
    ChainEmits(ordered, limit, 0, walks(n, None));
    assert ordered[0..] == ordered;
  }

  /** On unchanged data a walk allowed enough pages completes, and its pages put together
      are the sorted listing. */
  lemma StaticWalk(table: seq<Row>, resolved: Resolved, limit: nat, n: nat)
    requires Table(table) && HasId(resolved.fields) && 0 < limit && 0 < n && |table| <= n * limit
    ensures var pages := Walk(Repeat(table, n), resolved, limit, None);
            Completed(pages) && Emitted(pages) == SortRows(resolved.fields, table)
  {
    RoomIsProduct(n, limit);
    var ordered := SortRows(resolved.fields, table);
    var walks: Walks := (k: nat, last: Option<Row>) => Walk(Repeat(table, k), resolved, limit, TokenOf(resolved, last));
    StaticPage(table, resolved, limit, 0);
    AllWalksGoOn(table, resolved, limit, ordered, walks);
    WholeWalk(walks, ordered, limit, n);
  }
}
