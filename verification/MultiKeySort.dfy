/** Sorting by several keys with one stable sort per key, last key first
    (backend/src/ade_api/common/sorting.py). */
module MultiKeySort {
  import opened Wrappers
  import opened Listing
  import opened Pagination

  // ----- list.sort

  function Value(r: Row, name: string): int {
    var c := Column(r, name);
    if c.Val? then c.v else 0
  }

  /** May x, which came first, stay before y? */
  predicate StaysBefore(x: Row, y: Row, name: string, reverse: bool) {
    if reverse then Value(x, name) >= Value(y, name) else Value(x, name) <= Value(y, name)
  }

  function ListInsert(x: Row, s: seq<Row>, name: string, reverse: bool): seq<Row> {
    if s == [] || StaysBefore(x, s[0], name, reverse) then [x] + s else [s[0]] + ListInsert(x, s[1..], name, reverse)
  }

  /** `list.sort(key=.., reverse=..)`: stable in both directions. */
  function ListSort(s: seq<Row>, name: string, reverse: bool): seq<Row> {
    if s == [] then [] else ListInsert(s[0], ListSort(s[1..], name, reverse), name, reverse)
  }

  lemma OneFieldKey(f: Field, x: Row)
    ensures Key([f], x) == FieldKey(f, x) && Directions([f]) == FieldDirections(f)
  {
    assert [f][1..] == [] && Key([], x) == [] && Directions([]) == [];
  }

  lemma OneFieldCmp(f: Field, x: Row, y: Row)
    requires f.spec.Plain? && Column(x, f.name).Val? && Column(y, f.name).Val?
    ensures Cmp([f], x, y) <= 0 <==> StaysBefore(x, y, f.name, f.desc)
  {
    OneFieldKey(f, x);
    OneFieldKey(f, y);
    OneCellCompare(Column(x, f.name), Column(y, f.name), f.desc);
  }

  lemma OneCellCompare(a: Cell, b: Cell, desc: bool)
    requires a.Val? && b.Val?
    ensures CompareKeys([a], [b], [desc]) <= 0 <==> if desc then a.v >= b.v else a.v <= b.v
  {
    if a == b {
      CompareZero([a], [b], [desc]);
    }
  }

  lemma {:induction false} ListInsertIsInsert(f: Field, x: Row, s: seq<Row>)
    requires f.spec.Plain? && AllPresent([f], [x] + s)
    ensures ListInsert(x, s, f.name, f.desc) == Insert([f], x, s)
  {
    if s != [] {
      Present(f, [x] + s, 0);
      Present(f, [x] + s, 1);
      OneFieldCmp(f, x, s[0]);
      assert forall y :: y in [x] + s[1..] ==> y in [x] + s;
      ListInsertIsInsert(f, x, s[1..]);
    }
  }

  lemma Present(f: Field, s: seq<Row>, i: nat)
    requires f.spec.Plain? && AllPresent([f], s) && i < |s|
    ensures Column(s[i], f.name).Val?
  {
    assert PlainPresent([f], s[i]);
    assert [f][0] == f;
  }

  lemma {:induction false} ListSortIsSortRows(f: Field, s: seq<Row>)
    requires f.spec.Plain? && AllPresent([f], s)
    ensures ListSort(s, f.name, f.desc) == SortRows([f], s)
  {
    if s != [] {
      assert forall y :: y in s[1..] ==> y in s;
      ListSortIsSortRows(f, s[1..]);
      SortSorts([f], s[1..]);
      var rest := SortRows([f], s[1..]);
      forall y | y in [s[0]] + rest
        ensures y in s
      {
        assert y != s[0] ==> y in multiset(rest);
      }
      ListInsertIsInsert(f, s[0], rest);
    }
  }

  // ----- One pass over rows sorted by the later keys sorts by all keys

  lemma CmpLexicographic(f: Field, rest: seq<Field>, x: Row, y: Row)
    ensures Cmp([f] + rest, x, y) == if Cmp([f], x, y) != 0 then Cmp([f], x, y) else Cmp(rest, x, y)
  {
    assert ([f] + rest)[1..] == rest;
    OneFieldKey(f, x);
    OneFieldKey(f, y);
    CompareAppend(FieldKey(f, x), Key(rest, x), FieldKey(f, y), Key(rest, y), FieldDirections(f), Directions(rest));
  }

  lemma {:induction false} CompareAppend(a: seq<Cell>, a': seq<Cell>, b: seq<Cell>, b': seq<Cell>, d: seq<bool>, d': seq<bool>)
    requires |a| == |b| == |d|
    ensures CompareKeys(a + a', b + b', d + d') == if CompareKeys(a, b, d) != 0 then CompareKeys(a, b, d) else CompareKeys(a', b', d')
  {
    if a == [] {
      assert a + a' == a' && b + b' == b' && d + d' == d';
    } else {
      assert (a + a')[1..] == a[1..] + a' && (b + b')[1..] == b[1..] + b' && (d + d')[1..] == d[1..] + d';
      CompareAppend(a[1..], a', b[1..], b', d[1..], d');
    }
  }

  /** Inserting two rows the order tells apart gives the same list in either order. */
  lemma {:induction false} InsertsCommute(fields: seq<Field>, x: Row, y: Row, s: seq<Row>)
    requires Cmp(fields, x, y) != 0
    ensures Insert(fields, x, Insert(fields, y, s)) == Insert(fields, y, Insert(fields, x, s))
  {
    CmpLaws(fields, x, y, x);
    if s == [] {
    } else {
      CmpLaws(fields, x, s[0], y);
      CmpLaws(fields, y, s[0], x);
      if Cmp(fields, x, s[0]) > 0 && Cmp(fields, y, s[0]) > 0 {
        InsertsCommute(fields, x, y, s[1..]);
        assert ([s[0]] + Insert(fields, y, s[1..]))[1..] == Insert(fields, y, s[1..]);
        assert ([s[0]] + Insert(fields, x, s[1..]))[1..] == Insert(fields, x, s[1..]);
      }
    }
  }

  /** Where the later keys already put x first, the first key alone inserts like all keys. */
  lemma {:induction false} InsertByFirstKey(f: Field, rest: seq<Field>, x: Row, s: seq<Row>)
    requires forall y :: y in s ==> Cmp(rest, x, y) <= 0
    ensures Insert([f], x, s) == Insert([f] + rest, x, s)
  {
    if s != [] {
      CmpLexicographic(f, rest, x, s[0]);
      InsertByFirstKey(f, rest, x, s[1..]);
    }
  }

  lemma BelowAll(fields: seq<Field>, order: seq<Field>, h: Row, s: seq<Row>)
    requires forall y :: y in s ==> Cmp(fields, h, y) <= 0
    ensures forall y :: y in SortRows(order, s) ==> Cmp(fields, h, y) <= 0
  {
    SortSorts(order, s);
    forall y | y in SortRows(order, s)
      ensures Cmp(fields, h, y) <= 0
    {
      assert y in multiset(s);
    }
  }

  /** The case of a row that goes first, or of a head that stays first. */
  lemma SortAfterHead(f: Field, rest: seq<Field>, h: Row, s: seq<Row>)
    requires forall y :: y in s ==> Cmp(rest, h, y) <= 0
    ensures SortRows([f], [h] + s) == Insert([f] + rest, h, SortRows([f], s))
  {
    assert ([h] + s)[1..] == s;
    BelowAll(rest, [f], h, s);
    InsertByFirstKey(f, rest, h, SortRows([f], s));
  }

  lemma SortedHead(fields: seq<Field>, x: Row, s: seq<Row>)
    requires Sorted(fields, s) && s != []
    ensures forall y :: y in s ==> Cmp(fields, s[0], y) <= 0
    ensures Cmp(fields, x, s[0]) <= 0 ==> forall y :: y in s ==> Cmp(fields, x, y) <= 0
  {
    forall y | y in s
      ensures Cmp(fields, s[0], y) <= 0
      ensures Cmp(fields, x, s[0]) <= 0 ==> Cmp(fields, x, y) <= 0
    {
      CmpLaws(fields, s[0], s[0], s[0]);
      CmpLaws(fields, x, s[0], y);
    }
  }

  lemma {:induction false} SortAfterInsert(f: Field, rest: seq<Field>, x: Row, s: seq<Row>)
    requires Sorted(rest, s)
    ensures SortRows([f], Insert(rest, x, s)) == Insert([f] + rest, x, SortRows([f], s))
  {
    if s == [] {
      SortAfterHead(f, rest, x, s);
    } else {
      SortedHead(rest, x, s);
      if Cmp(rest, x, s[0]) <= 0 {
        SortAfterHead(f, rest, x, s);
      } else {
        var u, h := s[1..], s[0];
        assert s == [h] + u;
        CmpLaws(rest, x, h, h);
        InsertKeepsRows(rest, x, u);
        forall y | y in Insert(rest, x, u)
          ensures Cmp(rest, h, y) <= 0
        {
          assert y in multiset(u) + multiset{x};
        }
        SortAfterHead(f, rest, h, u);
        SortAfterHead(f, rest, h, Insert(rest, x, u));
        SortAfterInsert(f, rest, x, u);
        CmpLexicographic(f, rest, h, x);
        InsertsCommute([f] + rest, h, x, SortRows([f], u));
      }
    }
  }

  /** A stable sort by one key after a sort by the later keys is the sort by all of them. */
  lemma {:induction false} PassExtendsSort(f: Field, rest: seq<Field>, s: seq<Row>)
    ensures SortRows([f], SortRows(rest, s)) == SortRows([f] + rest, s)
  {
    if s != [] {
      PassExtendsSort(f, rest, s[1..]);
      SortSorts(rest, s[1..]);
      SortAfterInsert(f, rest, s[0], SortRows(rest, s[1..]));
    }
  }

  lemma {:induction false} NoKeysKeepOrder(s: seq<Row>)
    ensures SortRows([], s) == s
  {
    if s != [] {
      NoKeysKeepOrder(s[1..]);
    }
  }

  // ----- sort_sequence

  /** The keys `sort_sequence` sorts by; `id_key` needs no entry among the allowed names. */
  function SortFields(tokens: seq<string>, default: seq<string>, allowed: map<string, Spec>): Result<seq<Field>, SortError> {
    var used := if tokens != [] then tokens else default;
    if used == [] then Err(NoTokens)
    else if FirstUnsupported(used, allowed).Some? then Err(Unsupported(FirstUnsupported(used, allowed).value))
    else Ok(FieldsOf(used, allowed) + if NamesId(used) then [] else [Field("id", Plain, Descending(used[0]))])
  }

  ghost predicate AllPlain(fields: seq<Field>) {
    forall i :: 0 <= i < |fields| ==> fields[i].spec.Plain?
  }

  /** The loop of `sort_sequence`: one in-place stable sort per key, from the last to the
      first, leaves the rows as one stable sort by the whole comparison would. */
  method SortByPasses(items: seq<Row>, fields: seq<Field>) returns (ordered: seq<Row>)
    requires AllPlain(fields) && AllPresent(fields, items)
    ensures ordered == SortRows(fields, items)
  {
    ordered := items;
    NoKeysKeepOrder(items);
    var k := |fields|;
    assert fields[k..] == [];
    while k > 0
      invariant 0 <= k <= |fields|
      invariant ordered == SortRows(fields[k..], items)
    {
      k := k - 1;
      var f := fields[k];
      SortSorts(fields[k + 1..], items);
      forall x | x in ordered
        ensures PlainPresent([f], x)
      {
        assert x in multiset(items);
        assert PlainPresent(fields, x);
      }
      ListSortIsSortRows(f, ordered);
      PassExtendsSort(f, fields[k + 1..], items);
      assert [f] + fields[k + 1..] == fields[k..];
      ordered := ListSort(ordered, f.name, f.desc);
    }
    assert fields[0..] == fields;
  }

  method SortSequence(items: seq<Row>, tokens: seq<string>, allowed: map<string, Spec>, default: seq<string>) returns (r: Result<seq<Row>, SortError>)
    requires forall name :: name in allowed ==> allowed[name].Plain?
    requires SortFields(tokens, default, allowed).Ok? ==> AllPresent(SortFields(tokens, default, allowed).value, items)
    ensures SortFields(tokens, default, allowed).Err? ==> r == Err(SortFields(tokens, default, allowed).error)
    ensures SortFields(tokens, default, allowed).Ok? ==> r == Ok(SortRows(SortFields(tokens, default, allowed).value, items))
  {
    match SortFields(tokens, default, allowed)
    case Err(e) =>
      return Err(e);
    case Ok(fields) =>
      var ordered := SortByPasses(items, fields);
      return Ok(ordered);
  }

  /** `sort_sequence` and the cursor listing order alike: same tokens, same fields, and for a
      table the passes end in the strictly increasing order the cursor walk follows. */
  lemma SortSequenceIsListingOrder(items: seq<Row>, tokens: seq<string>, default: seq<string>, specs: map<string, Spec>)
    requires forall name :: name in specs ==> specs[name].Plain?
    requires "id" in specs && Resolve(tokens, default, specs).Ok? && Table(items)
    ensures var fields := Resolve(tokens, default, specs).value.fields;
            && SortFields(tokens, default, specs) == Ok(fields)
            && StrictlySorted(fields, SortRows(fields, items)) && multiset(SortRows(fields, items)) == multiset(items)
            && forall t :: multiset(t) == multiset(items) && StrictlySorted(fields, t) ==> t == SortRows(fields, items)
  {
    var fields := Resolve(tokens, default, specs).value.fields;
    ResolvedHasId(tokens, default, specs);
    var used := if tokens != [] then tokens else default;
    assert FieldsOf(used, specs) + [] == FieldsOf(used, specs);
    SortSorts(fields, items);
    SortIsStrict(fields, items);
    forall t | multiset(t) == multiset(items) && StrictlySorted(fields, t)
      ensures t == SortRows(fields, items)
    {
      StrictOrderUnique(fields, t, SortRows(fields, items));
    }
  }

  // ----- Removing repeated tokens

  predicate FirstAt(tokens: seq<string>, i: int, token: string) {
    0 <= i < |tokens| && tokens[i] == token && forall k :: 0 <= k < i ==> tokens[k] != token
  }

  /** `_dedupe_preserve_order`: exactly the tokens given, each once, by first occurrence. */
  method DedupePreserveOrder(tokens: seq<string>) returns (out: seq<string>)
    ensures forall t :: t in out <==> t in tokens
    ensures forall i, j :: 0 <= i < j < |out| ==> out[i] != out[j]
    ensures forall i, j, p, q :: 0 <= i < j < |out| && FirstAt(tokens, p, out[i]) && FirstAt(tokens, q, out[j]) ==> p < q
  {
    out := [];
    var seen: set<string> := {};
    var n := 0;
    while n < |tokens|
      invariant 0 <= n <= |tokens|
      invariant forall t :: t in seen <==> t in out
      invariant forall t :: t in out <==> t in tokens[..n]
      invariant forall i, j :: 0 <= i < j < |out| ==> out[i] != out[j]
      invariant forall i, j, p, q :: 0 <= i < j < |out| && FirstAt(tokens, p, out[i]) && FirstAt(tokens, q, out[j]) ==> p < q
    {
      var token := tokens[n];
      assert tokens[..n + 1] == tokens[..n] + [token];
      if token !in seen {
        forall t, p | t in out && FirstAt(tokens, p, t)
          ensures p < n
        {
          var m :| 0 <= m < n && tokens[..n][m] == t;
        }
        assert forall k :: 0 <= k < n ==> tokens[k] == tokens[..n][k];
        seen := seen + {token};
        out := out + [token];
      }
      n := n + 1;
    }
    assert tokens[..n] == tokens;
  }
}
