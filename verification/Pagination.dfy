/** The three forms of one listing (backend/src/ade_api/common/cursor_listing.py): a cursor
    walk over a sequence, an SQL query with a keyset predicate, and offset pages. */
module Pagination {
  import opened Wrappers
  import opened Listing

  // ----- Ordering rows

  function Cmp(fields: seq<Field>, x: Row, y: Row): int {
    CompareKeys(Key(fields, x), Key(fields, y), Directions(fields))
  }

  lemma CmpLaws(fields: seq<Field>, x: Row, y: Row, z: Row)
    ensures Cmp(fields, y, x) == -Cmp(fields, x, y) && -1 <= Cmp(fields, x, y) <= 1
    ensures Cmp(fields, x, y) <= 0 && Cmp(fields, y, z) <= 0 ==> Cmp(fields, x, z) <= 0
    ensures Cmp(fields, x, y) < 0 && Cmp(fields, y, z) <= 0 ==> Cmp(fields, x, z) < 0
    ensures Cmp(fields, x, y) <= 0 && Cmp(fields, y, z) < 0 ==> Cmp(fields, x, z) < 0
    ensures Cmp(fields, x, y) == 0 <==> Key(fields, x) == Key(fields, y)
  {
    var a, b, c, dirs := Key(fields, x), Key(fields, y), Key(fields, z), Directions(fields);
    KeyLength(fields, x);
    KeyLength(fields, y);
    KeyLength(fields, z);
    CompareOpposite(a, b, dirs);
    CompareZero(a, b, dirs);
    if CompareKeys(a, b, dirs) <= 0 && CompareKeys(b, c, dirs) <= 0 {
      CompareTransitive(a, b, c, dirs);
    }
  }

  lemma {:induction false} KeyTellsApart(fields: seq<Field>, x: Row, y: Row)
    requires HasId(fields) && Key(fields, x) == Key(fields, y)
    ensures x.id == y.id
  {
    KeyLength(fields, x);
    KeyLength(fields, y);
    var a, b := Key(fields, x), Key(fields, y);
    if fields[0].name == "id" {
      assert a[if fields[0].spec.Plain? then 0 else 1] == Val(x.id);
      assert b[if fields[0].spec.Plain? then 0 else 1] == Val(y.id);
    } else {
      var i :| 0 <= i < |fields| && fields[i].name == "id";
      assert fields[1..][i - 1].name == "id";
      var n := Arity(fields[0].spec);
      assert a[n..] == Key(fields[1..], x) && b[n..] == Key(fields[1..], y);
      KeyTellsApart(fields[1..], x, y);
    }
  }

  function Insert(fields: seq<Field>, x: Row, s: seq<Row>): seq<Row> {
    if s == [] || Cmp(fields, x, s[0]) <= 0 then [x] + s else [s[0]] + Insert(fields, x, s[1..])
  }

  /** `sorted(items, key=cmp_to_key(..))`, a stable sort. */
  function SortRows(fields: seq<Field>, s: seq<Row>): seq<Row> {
    if s == [] then [] else Insert(fields, s[0], SortRows(fields, s[1..]))
  }

  ghost predicate Sorted(fields: seq<Field>, s: seq<Row>) {
    forall i, j :: 0 <= i < j < |s| ==> Cmp(fields, s[i], s[j]) <= 0
  }

  ghost predicate StrictlySorted(fields: seq<Field>, s: seq<Row>) {
    forall i, j :: 0 <= i < j < |s| ==> Cmp(fields, s[i], s[j]) < 0
  }

  ghost predicate DistinctIds(s: seq<Row>) {
    forall x, y :: x in s && y in s && x.id == y.id ==> x == y
  }

  /** A table: ids are unique, and no row is listed twice. */
  ghost predicate Table(s: seq<Row>) {
    DistinctIds(s) && forall x :: multiset(s)[x] <= 1
  }

  lemma {:induction false} InsertKeepsRows(fields: seq<Field>, x: Row, s: seq<Row>)
    ensures multiset(Insert(fields, x, s)) == multiset(s) + multiset{x}
  {
    if s != [] && Cmp(fields, x, s[0]) > 0 {
      InsertKeepsRows(fields, x, s[1..]);
      assert s == [s[0]] + s[1..];
    }
  }

  lemma ConsSorted(fields: seq<Field>, x: Row, s: seq<Row>)
    requires Sorted(fields, s) && forall y :: y in s ==> Cmp(fields, x, y) <= 0
    ensures Sorted(fields, [x] + s)
  {
  }

  lemma {:induction false} InsertSorts(fields: seq<Field>, x: Row, s: seq<Row>)
    requires Sorted(fields, s)
    ensures Sorted(fields, Insert(fields, x, s))
  {
    if s == [] {
    } else if Cmp(fields, x, s[0]) <= 0 {
      forall y | y in s
        ensures Cmp(fields, x, y) <= 0
      {
        CmpLaws(fields, x, s[0], y);
      }
      ConsSorted(fields, x, s);
    } else {
      var inserted := Insert(fields, x, s[1..]);
      InsertSorts(fields, x, s[1..]);
      InsertKeepsRows(fields, x, s[1..]);
      forall y | y in inserted
        ensures Cmp(fields, s[0], y) <= 0
      {
        assert y in multiset(inserted);
        CmpLaws(fields, x, s[0], s[0]);
      }
      ConsSorted(fields, s[0], inserted);
    }
  }

  lemma {:induction false} SortSorts(fields: seq<Field>, s: seq<Row>)
    ensures Sorted(fields, SortRows(fields, s)) && multiset(SortRows(fields, s)) == multiset(s)
  {
    if s != [] {
      SortSorts(fields, s[1..]);
      InsertSorts(fields, s[0], SortRows(fields, s[1..]));
      InsertKeepsRows(fields, s[0], SortRows(fields, s[1..]));
      assert s == [s[0]] + s[1..];
    }
  }

  lemma PermutedTable(s: seq<Row>, t: seq<Row>)
    requires multiset(s) == multiset(t) && Table(s)
    ensures Table(t) && |s| == |t|
  {
    assert |multiset(s)| == |s| && |multiset(t)| == |t|;
    forall x | x in t
      ensures x in s
    {
      assert x in multiset(s);
    }
  }

  lemma NoRepeats(s: seq<Row>, i: int, j: int)
    requires Table(s) && 0 <= i < j < |s|
    ensures s[i] != s[j]
  {
    assert s == s[..j] + s[j..];
    assert multiset(s) == multiset(s[..j]) + multiset(s[j..]);
    assert s[..j][i] == s[i] && s[j..][0] == s[j];
    assert s[i] in multiset(s[..j]) && s[j] in multiset(s[j..]);
    assert multiset(s)[s[i]] == multiset(s[..j])[s[i]] + multiset(s[j..])[s[i]];
  }

  /** Sorting a table orders it strictly: ids leave no ties. */
  lemma SortIsStrict(fields: seq<Field>, s: seq<Row>)
    requires Table(s) && HasId(fields)
    ensures StrictlySorted(fields, SortRows(fields, s)) && Table(SortRows(fields, s)) && |SortRows(fields, s)| == |s|
  {
    var t := SortRows(fields, s);
    SortSorts(fields, s);
    PermutedTable(s, t);
    forall i, j | 0 <= i < j < |t|
      ensures Cmp(fields, t[i], t[j]) < 0
    {
      NoRepeats(t, i, j);
      CmpLaws(fields, t[i], t[j], t[j]);
      if Key(fields, t[i]) == Key(fields, t[j]) {
        KeyTellsApart(fields, t[i], t[j]);
      }
    }
  }

  lemma DropSameHead(s: seq<Row>, t: seq<Row>)
    requires s != [] && t != [] && s[0] == t[0] && multiset(s) == multiset(t)
    ensures multiset(s[1..]) == multiset(t[1..])
  {
    assert s == [s[0]] + s[1..] && t == [t[0]] + t[1..];
    assert multiset(s[1..]) == multiset(s) - multiset{s[0]};
    assert multiset(t[1..]) == multiset(t) - multiset{t[0]};
  }

  lemma SameHead(fields: seq<Field>, s: seq<Row>, t: seq<Row>)
    requires s != [] && t != [] && StrictlySorted(fields, s) && StrictlySorted(fields, t) && multiset(s) == multiset(t)
    ensures s[0] == t[0]
  {
    assert s[0] in multiset(t) && t[0] in multiset(s);
    CmpLaws(fields, s[0], t[0], s[0]);
  }

  /** There is only one way to order the same rows strictly. */
  lemma {:induction false} StrictOrderUnique(fields: seq<Field>, s: seq<Row>, t: seq<Row>)
    requires StrictlySorted(fields, s) && StrictlySorted(fields, t) && multiset(s) == multiset(t)
    ensures s == t
  {
    assert |multiset(s)| == |s| && |multiset(t)| == |t|;
    if s != [] {
      SameHead(fields, s, t);
      DropSameHead(s, t);
      StrictOrderUnique(fields, s[1..], t[1..]);
      assert s == [s[0]] + s[1..] && t == [t[0]] + t[1..];
    }
  }

  // ----- Pages

  datatype Token = Token(sort: seq<string>, values: seq<Cell>)

  datatype Page = Page(items: seq<Row>, hasMore: bool, next: Option<Token>, total: nat)

  datatype CursorError = SortMismatch | WrongLength | InvalidValue

  function Take<T>(s: seq<T>, n: nat): seq<T> {
    if |s| <= n then s else s[..n]
  }

  function ParseFields(values: seq<Cell>, fields: seq<Field>): Result<seq<Cell>, CursorError> {
    if fields == [] then Ok([])
    else if |values| < Arity(fields[0].spec) then Err(WrongLength)
    else if fields[0].spec.NullsLast? && values[0] != Val(0) && values[0] != Val(1) then Err(InvalidValue)
    else
      var n := Arity(fields[0].spec);
      match ParseFields(values[n..], fields[1..])
      case Err(e) => Err(e)
      case Ok(rest) => Ok(values[..n] + rest)
  }

  /** `_parse_cursor_values`, with column values that parse back to themselves. */
  function ParseCursor(token: Token, resolved: Resolved): Result<seq<Cell>, CursorError> {
    if token.sort != resolved.tokens then Err(SortMismatch)
    else if |token.values| != |Directions(resolved.fields)| then Err(WrongLength)
    else ParseFields(token.values, resolved.fields)
  }

  lemma {:induction false} ParseOwnKey(fields: seq<Field>, r: Row)
    ensures ParseFields(Key(fields, r), fields) == Ok(Key(fields, r))
  {
    if fields != [] {
      var key, n := Key(fields, r), Arity(fields[0].spec);
      assert key[n..] == Key(fields[1..], r) && key[..n] == FieldKey(fields[0], r);
      ParseOwnKey(fields[1..], r);
    }
  }

  /** The page cut from rows already in order and past the cursor. */
  function PageOf(rows: seq<Row>, resolved: Resolved, limit: nat, total: nat): Page {
    var fetched := Take(rows, limit + 1);
    var hasMore := |fetched| > limit;
    var items := Take(fetched, limit);
    var next := if hasMore && items != [] then Some(Token(resolved.tokens, Key(resolved.fields, items[|items| - 1]))) else None;
    Page(items, hasMore, next, total)
  }

  function StartIndex(ordered: seq<Row>, key: seq<Cell>, fields: seq<Field>): (i: nat)
    ensures i <= |ordered|
  {
    if ordered == [] || CompareKeys(Key(fields, ordered[0]), key, Directions(fields)) == 1 then 0
    else 1 + StartIndex(ordered[1..], key, fields)
  }

  /** `_resolve_sequence_start_index`. */
  method ResolveSequenceStartIndex(ordered: seq<Row>, key: seq<Cell>, fields: seq<Field>) returns (i: nat)
    ensures i == StartIndex(ordered, key, fields)
  {
    i := 0;
    while i < |ordered|
      invariant i <= |ordered| && StartIndex(ordered, key, fields) == i + StartIndex(ordered[i..], key, fields)
    {
      var c := CompareSequenceKeys(Key(fields, ordered[i]), key, Directions(fields));
      if c == 1 {
        return;
      }
      assert ordered[i..][1..] == ordered[i + 1..];
      i := i + 1;
    }
  }

  /** `paginate_sequence_cursor`: an empty listing answers before it looks at the cursor. */
  function PaginateSequence(items: seq<Row>, resolved: Resolved, limit: nat, cursor: Option<Token>): Result<Page, CursorError> {
    if items == [] then Ok(Page([], false, None, 0))
    else
      var ordered := SortRows(resolved.fields, items);
      if cursor.None? then Ok(PageOf(ordered, resolved, limit, |items|))
      else match ParseCursor(cursor.value, resolved)
        case Err(e) => Err(e)
        case Ok(key) => Ok(PageOf(ordered[Min(StartIndex(ordered, key, resolved.fields), |ordered|)..], resolved, limit, |items|))
  }

  // ----- The SQL form

  /** The rows the WHERE clause of a cursor keeps. */
  function Selected(items: seq<Row>, fields: seq<Field>, key: seq<Cell>): seq<Row>
    requires |key| == |Directions(fields)|
  {
    if items == [] then []
    else (if EvalAny(CursorPredicate(key, Directions(fields)), Key(fields, items[0])) == True then [items[0]] else [])
         + Selected(items[1..], fields, key)
  }

  /** Rows the database may return for `SELECT .. ORDER BY ..` over these rows. */
  ghost predicate IsQueryResult(rows: seq<Row>, selected: seq<Row>, fields: seq<Field>) {
    && multiset(rows) == multiset(selected)
    && (forall i, j :: 0 <= i < j < |rows| ==> SqlCompare(Key(fields, rows[i]), Key(fields, rows[j]), Directions(fields)) <= 0)
  }

  ghost predicate AllPresent(fields: seq<Field>, items: seq<Row>) {
    forall x :: x in items ==> PlainPresent(fields, x)
  }

  /** The rows after a cursor key are a tail of the ordered listing. */
  lemma {:induction false} TailIsAfter(ordered: seq<Row>, fields: seq<Field>, last: Row)
    requires Sorted(fields, ordered)
    ensures var m := StartIndex(ordered, Key(fields, last), fields);
            forall i :: 0 <= i < |ordered| ==> (Cmp(fields, ordered[i], last) == 1 <==> m <= i)
  {
    if ordered != [] {
      if Cmp(fields, ordered[0], last) == 1 {
        forall i | 0 < i < |ordered|
          ensures Cmp(fields, ordered[i], last) == 1
        {
          CmpLaws(fields, ordered[0], ordered[i], last);
          CmpLaws(fields, ordered[i], last, ordered[0]);
          CmpLaws(fields, last, ordered[i], last);
          CmpLaws(fields, ordered[0], last, ordered[0]);
          CmpLaws(fields, last, ordered[0], ordered[i]);
        }
      } else {
        TailIsAfter(ordered[1..], fields, last);
        var m := StartIndex(ordered[1..], Key(fields, last), fields);
        forall i | 0 < i < |ordered|
          ensures Cmp(fields, ordered[i], last) == 1 <==> m + 1 <= i
        {
          assert ordered[i] == ordered[1..][i - 1];
        }
      }
    }
  }

  lemma {:induction false} SelectedCount(items: seq<Row>, fields: seq<Field>, last: Row, x: Row)
    requires AllPresent(fields, items) && |Key(fields, last)| == |Directions(fields)|
    ensures multiset(Selected(items, fields, Key(fields, last)))[x] == if Cmp(fields, x, last) == 1 then multiset(items)[x] else 0
  {
    if items != [] {
      assert items == [items[0]] + items[1..];
      KeysetIsComparison(fields, items[0], last);
      SelectedCount(items[1..], fields, last, x);
    }
  }

  lemma {:induction false} KeptCount(items: seq<Row>, fields: seq<Field>, last: Row, m: nat, x: Row)
    requires m <= |items| && forall i :: 0 <= i < |items| ==> (Cmp(fields, items[i], last) == 1 <==> m <= i)
    ensures multiset(items[m..])[x] == if Cmp(fields, x, last) == 1 then multiset(items)[x] else 0
  {
    assert items == items[..m] + items[m..];
    assert multiset(items) == multiset(items[..m]) + multiset(items[m..]);
    if x in items[..m] {
      var i :| 0 <= i < m && items[..m][i] == x;
      assert items[i] == x;
    }
    if x in items[m..] {
      var i :| 0 <= i < |items| - m && items[m..][i] == x;
      assert items[m + i] == x;
    }
  }

  lemma QueryOrderIsStrict(rows: seq<Row>, selected: seq<Row>, fields: seq<Field>)
    requires IsQueryResult(rows, selected, fields) && Table(selected) && HasId(fields) && AllPresent(fields, selected)
    ensures StrictlySorted(fields, rows)
  {
    PermutedTable(selected, rows);
    forall i, j | 0 <= i < j < |rows|
      ensures Cmp(fields, rows[i], rows[j]) < 0
    {
      assert rows[i] in multiset(selected) && rows[j] in multiset(selected);
      RowsOrderedAlike(fields, rows[i], rows[j]);
      NoRepeats(rows, i, j);
      CmpLaws(fields, rows[i], rows[j], rows[j]);
      if Key(fields, rows[i]) == Key(fields, rows[j]) {
        KeyTellsApart(fields, rows[i], rows[j]);
      }
    }
  }

  lemma SelectedRows(items: seq<Row>, ordered: seq<Row>, fields: seq<Field>, last: Row)
    requires AllPresent(fields, items) && |Key(fields, last)| == |Directions(fields)|
    requires Sorted(fields, ordered) && multiset(ordered) == multiset(items)
    ensures var m := StartIndex(ordered, Key(fields, last), fields);
            multiset(Selected(items, fields, Key(fields, last))) == multiset(ordered[m..])
  {
    TailIsAfter(ordered, fields, last);
    var m := StartIndex(ordered, Key(fields, last), fields);
    forall x
      ensures multiset(Selected(items, fields, Key(fields, last)))[x] == multiset(ordered[m..])[x]
    {
      SelectedCount(items, fields, last, x);
      KeptCount(ordered, fields, last, m, x);
    }
  }

  lemma SelectedTable(items: seq<Row>, fields: seq<Field>, last: Row)
    requires Table(items) && AllPresent(fields, items) && |Key(fields, last)| == |Directions(fields)|
    ensures var selected := Selected(items, fields, Key(fields, last)); Table(selected) && AllPresent(fields, selected)
  {
    var selected := Selected(items, fields, Key(fields, last));
    forall x
      ensures multiset(selected)[x] <= multiset(items)[x]
    {
      SelectedCount(items, fields, last, x);
    }
    forall x | x in selected
      ensures x in items
    {
      assert multiset(selected)[x] > 0;
    }
  }

  lemma SelectedIsTail(items: seq<Row>, fields: seq<Field>, last: Row, rows: seq<Row>)
    requires Table(items) && HasId(fields) && AllPresent(fields, items)
    requires |Key(fields, last)| == |Directions(fields)|
    requires IsQueryResult(rows, Selected(items, fields, Key(fields, last)), fields)
    ensures var ordered := SortRows(fields, items);
            rows == ordered[StartIndex(ordered, Key(fields, last), fields)..]
  {
    var ordered := SortRows(fields, items);
    var selected := Selected(items, fields, Key(fields, last));
    SortSorts(fields, items);
    SortIsStrict(fields, items);
    SelectedRows(items, ordered, fields, last);
    SelectedTable(items, fields, last);
    QueryOrderIsStrict(rows, selected, fields);
    StrictOrderUnique(fields, rows, ordered[StartIndex(ordered, Key(fields, last), fields)..]);
  }

  /** Whatever order the database delivers its result in, the page of a keyset query is the
      page of the sequence walk with the same cursor. */
  lemma QueryPageIsSequencePage(items: seq<Row>, resolved: Resolved, limit: nat, last: Row, rows: seq<Row>)
    requires items != [] && Table(items) && HasId(resolved.fields) && AllPresent(resolved.fields, items)
    requires |Key(resolved.fields, last)| == |Directions(resolved.fields)|
    requires IsQueryResult(rows, Selected(items, resolved.fields, Key(resolved.fields, last)), resolved.fields)
    ensures PaginateSequence(items, resolved, limit, Some(Token(resolved.tokens, Key(resolved.fields, last))))
            == Ok(PageOf(rows, resolved, limit, |items|))
  {
    SelectedIsTail(items, resolved.fields, last, rows);
    ParseOwnKey(resolved.fields, last);
  }

  /** The first page likewise. */
  lemma FirstQueryPageIsSequencePage(items: seq<Row>, resolved: Resolved, limit: nat, rows: seq<Row>)
    requires items != [] && Table(items) && HasId(resolved.fields) && AllPresent(resolved.fields, items)
    requires IsQueryResult(rows, items, resolved.fields)
    ensures PaginateSequence(items, resolved, limit, None) == Ok(PageOf(rows, resolved, limit, |items|))
  {
    SortSorts(resolved.fields, items);
    SortIsStrict(resolved.fields, items);
    QueryOrderIsStrict(rows, items, resolved.fields);
    StrictOrderUnique(resolved.fields, rows, SortRows(resolved.fields, items));
  }

  // ----- Offset pages

  function Offset(page: int, limit: nat): nat {
    Max(page - 1, 0) * limit
  }

  function DropTo<T>(s: seq<T>, n: nat): seq<T> {
    if |s| <= n then [] else s[n..]
  }

  /** `paginate_query_page` over rows the database returned in order. */
  function PaginatePage(rows: seq<Row>, limit: nat, page: int, includeTotal: bool): Page {
    var fetched := Take(DropTo(rows, Offset(page, limit)), limit + 1);
    var items := Take(fetched, limit);
    Page(items, if includeTotal then Offset(page, limit) + |items| < |rows| else |fetched| > limit, None, |rows|)
  }

  /** Asking for the total never changes the page: the two ways to compute `hasMore` agree. */
  lemma TotalChangesNothing(rows: seq<Row>, limit: nat, page: int)
    ensures PaginatePage(rows, limit, page, true) == PaginatePage(rows, limit, page, false)
    ensures PaginatePage(rows, limit, page, true).hasMore <==> Offset(page, limit) + limit < |rows|
  {
  }

  /** The true cursor of page k. */
  function CursorAt(ordered: seq<Row>, resolved: Resolved, limit: nat, k: int): Option<Token> {
    var n := Offset(k, limit);
    if n == 0 || |ordered| <= n then None else Some(Token(resolved.tokens, Key(resolved.fields, ordered[n - 1])))
  }

  /** Page k is there: the first page always, a later one if rows are left for it. */
  predicate Exists(ordered: seq<Row>, limit: nat, k: int) {
    k == 1 || (1 < k && Offset(k, limit) < |ordered|)
  }

  /** In an unchanged listing a cursor taken from the m-th ordered row resumes right after it. */
  lemma {:induction false} ResumeAfter(ordered: seq<Row>, fields: seq<Field>, m: nat)
    requires StrictlySorted(fields, ordered) && 0 < m <= |ordered|
    ensures StartIndex(ordered, Key(fields, ordered[m - 1]), fields) == m
  {
    TailIsAfter(ordered, fields, ordered[m - 1]);
    var i := StartIndex(ordered, Key(fields, ordered[m - 1]), fields);
    CmpLaws(fields, ordered[m - 1], ordered[m - 1], ordered[m - 1]);
    if m < |ordered| {
      CmpLaws(fields, ordered[m - 1], ordered[m], ordered[m]);
    }
  }

  lemma ResumedPage(items: seq<Row>, resolved: Resolved, limit: nat, m: nat)
    requires Table(items) && HasId(resolved.fields) && 0 < m < |items|
    ensures |SortRows(resolved.fields, items)| == |items|
    ensures var ordered := SortRows(resolved.fields, items);
            PaginateSequence(items, resolved, limit, Some(Token(resolved.tokens, Key(resolved.fields, ordered[m - 1]))))
            == Ok(PageOf(ordered[m..], resolved, limit, |items|))
  {
    SortIsStrict(resolved.fields, items);
    var ordered := SortRows(resolved.fields, items);
    KeyLength(resolved.fields, ordered[m - 1]);
    ParseOwnKey(resolved.fields, ordered[m - 1]);
    ResumeAfter(ordered, resolved.fields, m);
  }

  /** Cutting a page off a tail of the ordered rows. */
  lemma PageOfTail(ordered: seq<Row>, resolved: Resolved, limit: nat, n: nat, total: nat)
    requires n <= |ordered| && 0 < limit
    ensures var page := PageOf(ordered[n..], resolved, limit, total);
            && page.total == total && (page.hasMore <==> n + limit < |ordered|)
            && page.items == (if page.hasMore then ordered[n..n + limit] else ordered[n..])
            && page.next == (if page.hasMore then Some(Token(resolved.tokens, Key(resolved.fields, ordered[n + limit - 1]))) else None)
  {
    var rows := ordered[n..];
    if limit < |rows| {
      assert Take(rows, limit + 1)[..limit] == ordered[n..n + limit];
    }
  }

  lemma OffsetPageIsSlice(ordered: seq<Row>, limit: nat, k: int)
    requires 0 < limit && Offset(k, limit) <= |ordered|
    ensures var n := Offset(k, limit); var page := PaginatePage(ordered, limit, k, false);
            && page.next == None && page.total == |ordered| && (page.hasMore <==> n + limit < |ordered|)
            && page.items == (if page.hasMore then ordered[n..n + limit] else ordered[n..])
  {
    var n := Offset(k, limit);
    var rows := DropTo(ordered, n);
    assert rows == ordered[n..];
    if limit < |rows| {
      assert Take(rows, limit + 1)[..limit] == ordered[n..n + limit];
    }
  }

  lemma FirstPage(items: seq<Row>, resolved: Resolved, limit: nat)
    requires 0 < limit
    ensures var ordered := SortRows(resolved.fields, items);
            |ordered| == |items| && PaginateSequence(items, resolved, limit, None) == Ok(PageOf(ordered, resolved, limit, |items|))
  {
    SortSorts(resolved.fields, items);
    assert |multiset(items)| == |items|;
    assert |multiset(SortRows(resolved.fields, items))| == |SortRows(resolved.fields, items)|;
  }

  /** The page of a tail is the offset page there, with its cursor. */
  lemma TailIsOffsetPage(ordered: seq<Row>, resolved: Resolved, limit: nat, k: int, total: nat)
    requires 0 < limit && Exists(ordered, limit, k) && total == |ordered|
    ensures PageOf(ordered[Offset(k, limit)..], resolved, limit, total)
         == PaginatePage(ordered, limit, k, false).(next := CursorAt(ordered, resolved, limit, k + 1))
  {
    NextOffset(k, limit);
    PageOfTail(ordered, resolved, limit, Offset(k, limit), total);
    OffsetPageIsSlice(ordered, limit, k);
  }

  lemma FirstCursorPage(items: seq<Row>, resolved: Resolved, limit: nat, ordered: seq<Row>)
    requires Table(items) && HasId(resolved.fields) && 0 < limit && ordered == SortRows(resolved.fields, items)
    ensures |ordered| == |items|
    ensures PaginateSequence(items, resolved, limit, CursorAt(ordered, resolved, limit, 1))
         == Ok(PageOf(ordered[Offset(1, limit)..], resolved, limit, |items|))
  {
    FirstPage(items, resolved, limit);
    FirstOffset(ordered, resolved, limit);
  }

  lemma FirstOffset(ordered: seq<Row>, resolved: Resolved, limit: nat)
    ensures CursorAt(ordered, resolved, limit, 1) == None && ordered[Offset(1, limit)..] == ordered
  {
  }

  lemma LaterCursorPage(items: seq<Row>, resolved: Resolved, limit: nat, ordered: seq<Row>, k: int)
    requires Table(items) && HasId(resolved.fields) && 0 < limit && ordered == SortRows(resolved.fields, items)
    requires 1 < k && Exists(ordered, limit, k) && |ordered| == |items|
    ensures PaginateSequence(items, resolved, limit, CursorAt(ordered, resolved, limit, k))
         == Ok(PageOf(ordered[Offset(k, limit)..], resolved, limit, |items|))
  {
    LaterOffset(k, limit);
    ResumedPage(items, resolved, limit, Offset(k, limit));
  }

  /** On unchanged data the page behind the k-th cursor is the k-th offset page, and the
      cursor it hands out is the true next one. */
  lemma CursorPageIsOffsetPage(items: seq<Row>, resolved: Resolved, limit: nat, k: int, ordered: seq<Row>)
    requires Table(items) && HasId(resolved.fields) && 0 < limit
    requires ordered == SortRows(resolved.fields, items) && Exists(ordered, limit, k)
    ensures PaginateSequence(items, resolved, limit, CursorAt(ordered, resolved, limit, k))
         == Ok(PaginatePage(ordered, limit, k, false).(next := CursorAt(ordered, resolved, limit, k + 1)))
  {
    FirstCursorPage(items, resolved, limit, ordered);
    TailIsOffsetPage(ordered, resolved, limit, k, |items|);
    if k > 1 {
      LaterCursorPage(items, resolved, limit, ordered, k);
    }
  }

  lemma LaterOffset(k: int, limit: nat)
    requires 1 < k && 0 < limit
    ensures 0 < Offset(k, limit)
  {
  }

  lemma NextOffset(k: int, limit: nat)
    requires 1 <= k
    ensures Offset(k + 1, limit) == Offset(k, limit) + limit
  {
  }
}
