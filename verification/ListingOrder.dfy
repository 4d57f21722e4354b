/** What the order of a listing means in terms of column values, and which cursors it takes. */
module ListingOrder {
  import opened Wrappers
  import opened Listing
  import opened Pagination
  import opened MultiKeySort

  // ----- Tokens

  function TextOf(f: Field): string {
    (if f.desc then "-" else "") + f.name
  }

  function Used(tokens: seq<string>, default: seq<string>): seq<string> {
    if tokens != [] then tokens else default
  }

  lemma FieldText(token: string, specs: map<string, Spec>)
    ensures TextOf(FieldOf(token, specs)) == token && FieldOf(token, specs).desc == ("-" <= token)
  {
    if "-" <= token {
      assert token == "-" + token[1..];
    }
  }

  lemma IdText(token: string)
    ensures NameOf(token) == "id" <==> token == "id" || token == "-id"
  {
    if NameOf(token) == "id" && "-" <= token {
      assert token == "-" + token[1..];
    }
  }

  lemma IdField(spec: Spec, desc: bool)
    ensures var token := if desc then "-id" else "id";
            TextOf(Field("id", spec, desc)) == token && ("-" <= token <==> desc)
  {
    assert "-id"[0] == '-' && "id"[0] != '-';
  }

  /** A token and its field say the same. */
  predicate SaysSame(token: string, f: Field, specs: map<string, Spec>) {
    TextOf(f) == token && f.desc == ("-" <= token) && f.name in specs && f.spec == specs[f.name]
  }

  lemma UsedFields(used: seq<string>, specs: map<string, Spec>)
    requires FirstUnsupported(used, specs).None?
    ensures forall i :: 0 <= i < |used| ==> SaysSame(used[i], FieldsOf(used, specs)[i], specs)
    ensures NamesId(used) <==> exists i :: 0 <= i < |used| && (used[i] == "id" || used[i] == "-id")
  {
    AllSupportedIff(used, specs);
    forall i | 0 <= i < |used|
      ensures SaysSame(used[i], FieldsOf(used, specs)[i], specs)
      ensures NameOf(used[i]) == "id" <==> used[i] == "id" || used[i] == "-id"
    {
      FieldText(used[i], specs);
      IdText(used[i]);
    }
  }

  /** Each token is the name of its field, with a minus for descending; an id field that was not
      asked for is added last, in the direction of the first token. */
  lemma ResolveMeans(tokens: seq<string>, default: seq<string>, specs: map<string, Spec>, r: Resolved)
    requires Resolve(tokens, default, specs) == Ok(r)
    ensures var used := Used(tokens, default);
            && used != [] && |r.fields| == |r.tokens|
            && (forall i :: 0 <= i < |r.fields| ==> SaysSame(r.tokens[i], r.fields[i], specs))
            && r.tokens == used + (if exists i :: 0 <= i < |used| && (used[i] == "id" || used[i] == "-id") then []
                                   else [if "-" <= used[0] then "-id" else "id"])
  {
    var used := Used(tokens, default);
    UsedFields(used, specs);
    if NamesId(used) {
      assert used + [] == used;
    } else {
      IdField(specs["id"], Descending(used[0]));
      FieldText(used[0], specs);
    }
  }

  lemma {:induction false} AllSupportedIff(tokens: seq<string>, specs: map<string, Spec>)
    ensures FirstUnsupported(tokens, specs) == None <==> forall i :: 0 <= i < |tokens| ==> NameOf(tokens[i]) in specs
    ensures FirstUnsupported(tokens, specs).Some? ==>
      exists i :: 0 <= i < |tokens| && FieldOf(tokens[i], specs).name == FirstUnsupported(tokens, specs).value && NameOf(tokens[i]) !in specs
  {
    if tokens != [] {
      AllSupportedIff(tokens[1..], specs);
      assert tokens == [tokens[0]] + tokens[1..];
      if NameOf(tokens[0]) in specs && FirstUnsupported(tokens[1..], specs).Some? {
        var i :| 0 <= i < |tokens[1..]| && FieldOf(tokens[1..][i], specs).name == FirstUnsupported(tokens[1..], specs).value && NameOf(tokens[1..][i]) !in specs;
        assert tokens[i + 1] == tokens[1..][i];
      }
    }
  }

  // ----- Columns

  /** One field: values in its direction, and rows without a value after those with one in
      either direction. */
  predicate FieldBefore(f: Field, x: Row, y: Row) {
    match (Column(x, f.name), Column(y, f.name))
    case (Val(a), Val(b)) => if f.desc then b < a else a < b
    case (Val(_), Null) => true
    case (Null, _) => false
  }

  /** The fields in turn. */
  predicate Precedes(fields: seq<Field>, x: Row, y: Row) {
    fields != [] &&
    (FieldBefore(fields[0], x, y) || (Column(x, fields[0].name) == Column(y, fields[0].name) && Precedes(fields[1..], x, y)))
  }

  lemma OneCell(a: Cell, b: Cell, desc: bool)
    ensures CompareKeys([a], [b], [desc]) < 0
       <==> a.Val? && (b.Null? || (if desc then b.v < a.v else a.v < b.v))
    ensures CompareKeys([a], [b], [desc]) == 0 <==> a == b
  {
    if a == b {
      CompareZero([a], [b], [desc]);
    }
  }

  lemma TwoCells(a: seq<Cell>, b: seq<Cell>, dirs: seq<bool>)
    requires |a| == |b| == |dirs| == 2
    ensures CompareKeys(a, b, dirs)
         == if CompareKeys([a[0]], [b[0]], [dirs[0]]) != 0 then CompareKeys([a[0]], [b[0]], [dirs[0]]) else CompareKeys([a[1]], [b[1]], [dirs[1]])
  {
    assert a == [a[0]] + [a[1]] && b == [b[0]] + [b[1]] && dirs == [dirs[0]] + [dirs[1]];
    CompareAppend([a[0]], [a[1]], [b[0]], [b[1]], [dirs[0]], [dirs[1]]);
  }

  lemma FieldCmp(f: Field, x: Row, y: Row)
    ensures Cmp([f], x, y) < 0 <==> FieldBefore(f, x, y)
    ensures Cmp([f], x, y) == 0 <==> Column(x, f.name) == Column(y, f.name)
  {
    OneFieldKey(f, x);
    OneFieldKey(f, y);
    var a, b, dirs := FieldKey(f, x), FieldKey(f, y), FieldDirections(f);
    OneCell(a[0], b[0], dirs[0]);
    if f.spec.NullsLast? {
      OneCell(a[1], b[1], dirs[1]);
      TwoCells(a, b, dirs);
    }
  }

  /** The comparison of keys is the order of the columns: fields in turn, each in its direction
      with nulls last, whether a column is declared with nulls or not. */
  lemma {:induction false} CmpIsColumnOrder(fields: seq<Field>, x: Row, y: Row)
    ensures Cmp(fields, x, y) < 0 <==> Precedes(fields, x, y)
  {
    if fields != [] {
      assert fields == [fields[0]] + fields[1..];
      CmpLexicographic(fields[0], fields[1..], x, y);
      FieldCmp(fields[0], x, y);
      CmpIsColumnOrder(fields[1..], x, y);
    }
  }

  /** The sorted listing is in that order. */
  lemma SortedByColumns(fields: seq<Field>, items: seq<Row>, i: nat, j: nat)
    requires i < j < |SortRows(fields, items)|
    ensures !Precedes(fields, SortRows(fields, items)[j], SortRows(fields, items)[i])
  {
    var s := SortRows(fields, items);
    SortSorts(fields, items);
    CmpLaws(fields, s[i], s[j], s[j]);
    CmpIsColumnOrder(fields, s[j], s[i]);
  }

  /** By its first field: no row without a value before one with a value, and values in the
      direction asked for. */
  lemma SortedByFirst(fields: seq<Field>, items: seq<Row>, i: nat, j: nat)
    requires fields != [] && i < j < |SortRows(fields, items)|
    ensures var f, x, y := fields[0], Column(SortRows(fields, items)[i], fields[0].name), Column(SortRows(fields, items)[j], fields[0].name);
            && (x.Null? ==> y.Null?)
            && (x.Val? && y.Val? ==> if f.desc then y.v <= x.v else x.v <= y.v)
  {
    SortedByColumns(fields, items, i, j);
  }

  // ----- Cursors

  /** The rank in front of every nulls-last value is 0 or 1. */
  predicate RanksOk(values: seq<Cell>, fields: seq<Field>) {
    fields == [] ||
    (Arity(fields[0].spec) <= |values| && (fields[0].spec.NullsLast? ==> values[0] == Val(0) || values[0] == Val(1))
     && RanksOk(values[Arity(fields[0].spec)..], fields[1..]))
  }

  lemma {:induction false} ParseFieldsIff(values: seq<Cell>, fields: seq<Field>)
    requires |values| == |Directions(fields)|
    ensures ParseFields(values, fields) == if RanksOk(values, fields) then Ok(values) else Err(InvalidValue)
  {
    if fields != [] {
      var n := Arity(fields[0].spec);
      assert |FieldDirections(fields[0])| == n;
      ParseFieldsIff(values[n..], fields[1..]);
      assert values == values[..n] + values[n..];
    }
  }

  /** A cursor is taken, with its values as they are, exactly when it is of the same sort, tokens
      and all, has as many values as the sort has, and each rank is 0 or 1. */
  lemma CursorTakenIff(token: Token, resolved: Resolved)
    ensures ParseCursor(token, resolved)
         == if token.sort != resolved.tokens then Err(SortMismatch)
            else if |token.values| != |Directions(resolved.fields)| then Err(WrongLength)
            else if !RanksOk(token.values, resolved.fields) then Err(InvalidValue)
            else Ok(token.values)
  {
    if |token.values| == |Directions(resolved.fields)| {
      ParseFieldsIff(token.values, resolved.fields);
    }
  }

  /** So a page of another sort's cursor is refused, unless there is nothing to page through. */
  lemma OtherSortRefused(items: seq<Row>, resolved: Resolved, limit: nat, token: Token)
    requires token.sort != resolved.tokens
    ensures PaginateSequence(items, resolved, limit, Some(token))
         == if items == [] then Ok(Page([], false, None, 0)) else Err(SortMismatch)
  {
  }
}
