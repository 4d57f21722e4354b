/** Sort keys, the cursor comparison and the SQL keyset predicate of
    backend/src/ade_api/common/cursor_listing.py. */
module Listing {
  import opened Wrappers

  /** A nullable column value; each column's type is ordered, so its values are numbered. */
  datatype Cell = Null | Val(v: int)

  datatype Row = Row(id: int, cells: map<string, Cell>)

  function Column(r: Row, name: string): Cell {
    if name == "id" then Val(r.id) else if name in r.cells then r.cells[name] else Null
  }

  /** `cursor_field` and `cursor_field_nulls_last`. */
  datatype Spec = Plain | NullsLast

  datatype Field = Field(name: string, spec: Spec, desc: bool)

  datatype Resolved = Resolved(tokens: seq<string>, fields: seq<Field>)

  datatype SortError = NoTokens | Unsupported(name: string) | NoIdField

  function Arity(spec: Spec): nat {
    if spec.Plain? then 1 else 2
  }

  function FieldKey(f: Field, r: Row): seq<Cell> {
    var value := Column(r, f.name);
    if f.spec.Plain? then [value] else [Val(if value.Null? then 1 else 0), value]
  }

  /** True is descending. */
  function FieldDirections(f: Field): seq<bool> {
    if f.spec.Plain? then [f.desc] else [false, f.desc]
  }

  function Key(fields: seq<Field>, r: Row): seq<Cell> {
    if fields == [] then [] else FieldKey(fields[0], r) + Key(fields[1..], r)
  }

  function Directions(fields: seq<Field>): (d: seq<bool>) {
    if fields == [] then [] else FieldDirections(fields[0]) + Directions(fields[1..])
  }

  lemma {:induction false} KeyLength(fields: seq<Field>, r: Row)
    ensures |Key(fields, r)| == |Directions(fields)|
  {
    if fields != [] {
      KeyLength(fields[1..], r);
    }
  }

  // ----- Resolving sort tokens

  predicate Descending(token: string) {
    token != "" && token[0] == '-'
  }

  function NameOf(token: string): string {
    if Descending(token) then token[1..] else token
  }

  function FirstUnsupported(tokens: seq<string>, specs: map<string, Spec>): Option<string> {
    if tokens == [] then None
    else if NameOf(tokens[0]) !in specs then Some(NameOf(tokens[0]))
    else FirstUnsupported(tokens[1..], specs)
  }

  function FieldOf(token: string, specs: map<string, Spec>): Field {
    var name := NameOf(token);
    Field(name, if name in specs then specs[name] else Plain, Descending(token))
  }

  function FieldsOf(tokens: seq<string>, specs: map<string, Spec>): seq<Field> {
    seq(|tokens|, i requires 0 <= i < |tokens| => FieldOf(tokens[i], specs))
  }

  predicate NamesId(tokens: seq<string>) {
    exists i :: 0 <= i < |tokens| && NameOf(tokens[i]) == "id"
  }

  function Resolve(tokens: seq<string>, default: seq<string>, specs: map<string, Spec>): Result<Resolved, SortError> {
    var used := if tokens != [] then tokens else default;
    if used == [] then Err(NoTokens)
    else if FirstUnsupported(used, specs).Some? then Err(Unsupported(FirstUnsupported(used, specs).value))
    else
      var fields := FieldsOf(used, specs);
      if NamesId(used) then Ok(Resolved(used, fields))
      else if "id" !in specs then Err(NoIdField)
      else
        var idToken := if Descending(used[0]) then "-id" else "id";
        Ok(Resolved(used + [idToken], fields + [Field("id", specs["id"], Descending(used[0]))]))
  }

  lemma {:induction false} FirstUnsupportedPrefix(tokens: seq<string>, specs: map<string, Spec>, k: nat)
    requires k < |tokens| && (forall i :: 0 <= i < k ==> NameOf(tokens[i]) in specs) && NameOf(tokens[k]) !in specs
    ensures FirstUnsupported(tokens, specs) == Some(NameOf(tokens[k]))
  {
    if k > 0 {
      FirstUnsupportedPrefix(tokens[1..], specs, k - 1);
    }
  }

  lemma {:induction false} AllSupported(tokens: seq<string>, specs: map<string, Spec>)
    requires forall i :: 0 <= i < |tokens| ==> NameOf(tokens[i]) in specs
    ensures FirstUnsupported(tokens, specs) == None
  {
    if tokens != [] {
      AllSupported(tokens[1..], specs);
    }
  }

  /** `resolve_cursor_sort_sequence`, and `resolve_cursor_sort` with columns that follow the
      field specifications. */
  method ResolveCursorSort(tokens: seq<string>, specs: map<string, Spec>, default: seq<string>) returns (r: Result<Resolved, SortError>)
    ensures r == Resolve(tokens, default, specs)
  {
    var used := if tokens != [] then tokens else default;
    if used == [] {
      return Err(NoTokens);
    }
    var fields: seq<Field> := [];
    var hasId := false;
    var i := 0;
    while i < |used|
      invariant 0 <= i <= |used| && |fields| == i
      invariant forall j :: 0 <= j < i ==> NameOf(used[j]) in specs && fields[j] == FieldOf(used[j], specs)
      invariant hasId <==> exists j :: 0 <= j < i && NameOf(used[j]) == "id"
    {
      var name := NameOf(used[i]);
      hasId := hasId || name == "id";
      if name !in specs {
        FirstUnsupportedPrefix(used, specs, i);
        return Err(Unsupported(name));
      }
      fields := fields + [Field(name, specs[name], Descending(used[i]))];
      i := i + 1;
    }
    AllSupported(used, specs);
    assert fields == FieldsOf(used, specs);
    if hasId {
      return Ok(Resolved(used, fields));
    }
    if "id" !in specs {
      return Err(NoIdField);
    }
    var descending := Descending(used[0]);
    return Ok(Resolved(used + [if descending then "-id" else "id"], fields + [Field("id", specs["id"], descending)]));
  }

  ghost predicate HasId(fields: seq<Field>) {
    exists i :: 0 <= i < |fields| && fields[i].name == "id"
  }

  /** Whatever was asked for, a resolved sort orders by id somewhere, so keys tell rows apart. */
  lemma ResolvedHasId(tokens: seq<string>, default: seq<string>, specs: map<string, Spec>)
    requires Resolve(tokens, default, specs).Ok?
    ensures var r := Resolve(tokens, default, specs).value;
            HasId(r.fields) && |r.fields| == |r.tokens|
            && forall i :: 0 <= i < |r.fields| ==> r.fields[i].name == NameOf(r.tokens[i]) && r.fields[i].desc == Descending(r.tokens[i])
  {
    var r := Resolve(tokens, default, specs).value;
    var used := if tokens != [] then tokens else default;
    if NamesId(used) {
      var i :| 0 <= i < |used| && NameOf(used[i]) == "id";
      assert r.fields[i].name == "id";
    } else {
      assert r.fields[|used|].name == "id";
    }
  }

  // ----- Comparing keys

  /** `_compare_sequence_keys`: nulls last in either direction. */
  function CompareKeys(a: seq<Cell>, b: seq<Cell>, dirs: seq<bool>): int {
    if a == [] || b == [] || dirs == [] then 0
    else if a[0] == b[0] then CompareKeys(a[1..], b[1..], dirs[1..])
    else if a[0].Null? then 1
    else if b[0].Null? then -1
    else if dirs[0] then (if a[0].v > b[0].v then -1 else 1)
    else if a[0].v < b[0].v then -1 else 1
  }

  method CompareSequenceKeys(a: seq<Cell>, b: seq<Cell>, dirs: seq<bool>) returns (c: int)
    ensures c == CompareKeys(a, b, dirs)
  {
    var i := 0;
    while i < |a| && i < |b| && i < |dirs|
      invariant 0 <= i <= |a| && i <= |b| && i <= |dirs|
      invariant CompareKeys(a, b, dirs) == CompareKeys(a[i..], b[i..], dirs[i..])
    {
      if a[i] != b[i] {
        if a[i].Null? {
          return 1;
        }
        if b[i].Null? {
          return -1;
        }
        if dirs[i] {
          return if a[i].v > b[i].v then -1 else 1;
        }
        return if a[i].v < b[i].v then -1 else 1;
      }
      assert a[i..][1..] == a[i + 1..] && b[i..][1..] == b[i + 1..] && dirs[i..][1..] == dirs[i + 1..];
      i := i + 1;
    }
    return 0;
  }

  lemma {:induction false} CompareOpposite(a: seq<Cell>, b: seq<Cell>, dirs: seq<bool>)
    ensures CompareKeys(b, a, dirs) == -CompareKeys(a, b, dirs)
    ensures -1 <= CompareKeys(a, b, dirs) <= 1
  {
    if a != [] && b != [] && dirs != [] && a[0] == b[0] {
      CompareOpposite(a[1..], b[1..], dirs[1..]);
    }
  }

  lemma {:induction false} CompareZero(a: seq<Cell>, b: seq<Cell>, dirs: seq<bool>)
    requires |a| == |b| == |dirs|
    ensures CompareKeys(a, b, dirs) == 0 <==> a == b
  {
    if a != [] {
      CompareZero(a[1..], b[1..], dirs[1..]);
      assert a == [a[0]] + a[1..] && b == [b[0]] + b[1..];
    }
  }

  lemma {:induction false} CompareTransitive(a: seq<Cell>, b: seq<Cell>, c: seq<Cell>, dirs: seq<bool>)
    requires |a| == |b| == |c| == |dirs|
    requires CompareKeys(a, b, dirs) <= 0 && CompareKeys(b, c, dirs) <= 0
    ensures CompareKeys(a, c, dirs) <= 0
    ensures CompareKeys(a, b, dirs) < 0 || CompareKeys(b, c, dirs) < 0 ==> CompareKeys(a, c, dirs) < 0
  {
    if a != [] && a[0] == b[0] == c[0] {
      CompareTransitive(a[1..], b[1..], c[1..], dirs[1..]);
    }
  }

  // ----- The keyset predicate in SQL

  /** The truth values of SQL. */
  datatype Truth = True | False | Unknown

  function And3(p: Truth, q: Truth): Truth {
    if p.False? || q.False? then False else if p.True? && q.True? then True else Unknown
  }

  function Or3(p: Truth, q: Truth): Truth {
    if p.True? || q.True? then True else if p.False? && q.False? then False else Unknown
  }

  /** Comparisons of the k-th ordering expression with a cursor value. */
  datatype Atom = IsNull(k: nat) | Equals(k: nat, v: int) | Above(k: nat, v: int) | Below(k: nat, v: int)

  function EvalAtom(a: Atom, key: seq<Cell>): Truth {
    if a.k >= |key| then Unknown
    else if a.IsNull? then (if key[a.k].Null? then True else False)
    else if key[a.k].Null? then Unknown
    else
      var x := key[a.k].v;
      if (if a.Equals? then x == a.v else if a.Above? then x > a.v else x < a.v) then True else False
  }

  function EvalAll(atoms: seq<Atom>, key: seq<Cell>): Truth {
    if atoms == [] then True else And3(EvalAtom(atoms[0], key), EvalAll(atoms[1..], key))
  }

  function EvalAny(conditions: seq<seq<Atom>>, key: seq<Cell>): Truth {
    if conditions == [] then False else Or3(EvalAll(conditions[0], key), EvalAny(conditions[1..], key))
  }

  /** `_compare_eq` and `_compare_after`. */
  function CompareEq(k: nat, value: Cell): Atom {
    if value.Null? then IsNull(k) else Equals(k, value.v)
  }

  function CompareAfter(k: nat, value: Cell, desc: bool): Option<Atom> {
    if value.Null? then None else if desc then Some(Below(k, value.v)) else Some(Above(k, value.v))
  }

  function EqualUpTo(values: seq<Cell>, n: nat): seq<Atom>
    requires n <= |values|
  {
    if n == 0 then [] else EqualUpTo(values, n - 1) + [CompareEq(n - 1, values[n - 1])]
  }

  function ConditionsUpTo(values: seq<Cell>, dirs: seq<bool>, n: nat): seq<seq<Atom>>
    requires n <= |values| == |dirs|
  {
    if n == 0 then []
    else
      var after := CompareAfter(n - 1, values[n - 1], dirs[n - 1]);
      ConditionsUpTo(values, dirs, n - 1) + if after.Some? then [EqualUpTo(values, n - 1) + [after.value]] else []
  }

  /** The predicate of a cursor: one condition per non-null value, each fixing the values
      before it. */
  function CursorPredicate(values: seq<Cell>, dirs: seq<bool>): seq<seq<Atom>>
    requires |values| == |dirs|
  {
    ConditionsUpTo(values, dirs, |values|)
  }

  /** `_build_cursor_predicate`. */
  method BuildCursorPredicate(values: seq<Cell>, dirs: seq<bool>) returns (conditions: seq<seq<Atom>>)
    requires |values| == |dirs|
    ensures conditions == CursorPredicate(values, dirs)
  {
    conditions := [];
    var i := 0;
    while i < |values|
      invariant 0 <= i <= |values|
      invariant conditions == ConditionsUpTo(values, dirs, i)
    {
      var equal: seq<Atom> := [];
      var j := 0;
      while j < i
        invariant 0 <= j <= i
        invariant equal == EqualUpTo(values, j)
      {
        equal := equal + [CompareEq(j, values[j])];
        j := j + 1;
      }
      var after := CompareAfter(i, values[i], dirs[i]);
      if after.Some? {
        conditions := conditions + [equal + [after.value]];
      }
      i := i + 1;
    }
  }

  /** Position i is where a row with this key comes after the cursor: equal before, and
      both values present and in order there. */
  predicate Decides(values: seq<Cell>, dirs: seq<bool>, key: seq<Cell>, i: int) {
    && 0 <= i < |values| && |values| == |dirs| == |key|
    && key[..i] == values[..i] && key[i].Val? && values[i].Val?
    && (if dirs[i] then key[i].v < values[i].v else key[i].v > values[i].v)
  }

  lemma {:induction false} AllOfAppend(atoms: seq<Atom>, last: Atom, key: seq<Cell>)
    ensures EvalAll(atoms + [last], key) == True <==> EvalAll(atoms, key) == True && EvalAtom(last, key) == True
  {
    if atoms == [] {
      assert [last][1..] == [];
      assert atoms + [last] == [last];
    } else {
      assert (atoms + [last])[1..] == atoms[1..] + [last];
      AllOfAppend(atoms[1..], last, key);
    }
  }

  lemma {:induction false} AnyOfAppend(conditions: seq<seq<Atom>>, last: seq<Atom>, key: seq<Cell>)
    ensures EvalAny(conditions + [last], key) == True <==> EvalAny(conditions, key) == True || EvalAll(last, key) == True
  {
    if conditions == [] {
      assert conditions + [last] == [last];
      assert [last][1..] == [];
    } else {
      assert (conditions + [last])[1..] == conditions[1..] + [last];
      AnyOfAppend(conditions[1..], last, key);
    }
  }

  lemma {:induction false} EqualUpToHolds(values: seq<Cell>, key: seq<Cell>, n: nat)
    requires n <= |values| == |key|
    ensures EvalAll(EqualUpTo(values, n), key) == True <==> key[..n] == values[..n]
  {
    if n > 0 {
      EqualUpToHolds(values, key, n - 1);
      AllOfAppend(EqualUpTo(values, n - 1), CompareEq(n - 1, values[n - 1]), key);
      assert key[..n] == key[..n - 1] + [key[n - 1]] && values[..n] == values[..n - 1] + [values[n - 1]];
    }
  }

  lemma OneMoreCondition(values: seq<Cell>, dirs: seq<bool>, key: seq<Cell>, n: nat, before: seq<seq<Atom>>)
    requires n < |values| == |dirs| == |key| && before == ConditionsUpTo(values, dirs, n)
    ensures EvalAny(ConditionsUpTo(values, dirs, n + 1), key) == True
       <==> EvalAny(before, key) == True || Decides(values, dirs, key, n)
  {
    var after := CompareAfter(n, values[n], dirs[n]);
    if after.Some? {
      EqualUpToHolds(values, key, n);
      AllOfAppend(EqualUpTo(values, n), after.value, key);
      AnyOfAppend(before, EqualUpTo(values, n) + [after.value], key);
    } else {
      assert before + [] == before;
    }
  }

  lemma {:induction false} ConditionsHold(values: seq<Cell>, dirs: seq<bool>, key: seq<Cell>, n: nat)
    requires n <= |values| == |dirs| == |key|
    ensures EvalAny(ConditionsUpTo(values, dirs, n), key) == True <==> exists i :: i < n && Decides(values, dirs, key, i)
  {
    if n > 0 {
      ConditionsHold(values, dirs, key, n - 1);
      OneMoreCondition(values, dirs, key, n - 1, ConditionsUpTo(values, dirs, n - 1));
    }
  }

  /** The first difference, if any, has a null in the row's key. */
  predicate NullDecides(key: seq<Cell>, values: seq<Cell>) {
    |key| == |values| && key != [] &&
    if key[0] == values[0] then NullDecides(key[1..], values[1..]) else key[0].Null?
  }

  lemma DecidesShift(values: seq<Cell>, dirs: seq<bool>, key: seq<Cell>, i: int)
    requires |key| == |values| == |dirs| && key != [] && key[0] == values[0] && i != 0
    ensures Decides(values, dirs, key, i) <==> Decides(values[1..], dirs[1..], key[1..], i - 1)
  {
    if 0 < i < |values| {
      assert key[..i] == [key[0]] + key[1..][..i - 1] && values[..i] == [values[0]] + values[1..][..i - 1];
      assert key[1..][..i - 1] == key[..i][1..] && values[1..][..i - 1] == values[..i][1..];
    }
  }

  lemma DecidesAtHead(values: seq<Cell>, dirs: seq<bool>, key: seq<Cell>, i: int)
    requires |key| == |values| == |dirs| && key != [] && key[0] != values[0]
    ensures Decides(values, dirs, key, i) ==> i == 0
  {
    if 0 < i < |values| {
      assert key[..i][0] == key[0] && values[..i][0] == values[0];
    }
  }

  /** The comparison in terms of the position that decides it. */
  lemma {:induction false} CompareByPosition(key: seq<Cell>, values: seq<Cell>, dirs: seq<bool>)
    requires |key| == |values| == |dirs|
    ensures CompareKeys(key, values, dirs) == 1 <==> (exists i :: Decides(values, dirs, key, i)) || NullDecides(key, values)
    ensures NullDecides(key, values) ==> forall i :: !Decides(values, dirs, key, i)
  {
    if key != [] {
      if key[0] == values[0] {
        var k, v, d := key[1..], values[1..], dirs[1..];
        CompareByPosition(k, v, d);
        forall i
          ensures Decides(values, dirs, key, i) <==> Decides(v, d, k, i - 1)
        {
          if i != 0 {
            DecidesShift(values, dirs, key, i);
          }
        }
        if i :| Decides(v, d, k, i) {
          assert Decides(values, dirs, key, i + 1);
        }
      } else {
        forall i
          ensures Decides(values, dirs, key, i) ==> i == 0
        {
          DecidesAtHead(values, dirs, key, i);
        }
        assert key[..0] == values[..0];
        assert Decides(values, dirs, key, 0) <==>
                 key[0].Val? && values[0].Val? && (if dirs[0] then key[0].v < values[0].v else key[0].v > values[0].v);
      }
    }
  }

  /** The predicate selects a row exactly when the comparison puts it after the cursor, on
      exactly those keys whose first difference from the cursor is not a null of the row. */
  lemma KeysetAgreesIff(values: seq<Cell>, dirs: seq<bool>, key: seq<Cell>)
    requires |key| == |values| == |dirs|
    ensures (EvalAny(CursorPredicate(values, dirs), key) == True <==> CompareKeys(key, values, dirs) == 1) <==> !NullDecides(key, values)
  {
    ConditionsHold(values, dirs, key, |values|);
    CompareByPosition(key, values, dirs);
  }

  /** A row as the listings have it: plain sort columns are not null. */
  predicate PlainPresent(fields: seq<Field>, r: Row) {
    forall i :: 0 <= i < |fields| && fields[i].spec.Plain? ==> Column(r, fields[i].name).Val?
  }

  lemma {:induction false} KeysNeverNullDecided(fields: seq<Field>, x: Row, y: Row)
    requires PlainPresent(fields, x)
    ensures !NullDecides(Key(fields, x), Key(fields, y))
  {
    if fields != [] {
      KeyLength(fields, x);
      KeyLength(fields, y);
      KeysNeverNullDecided(fields[1..], x, y);
      var a, b := Key(fields, x), Key(fields, y);
      if fields[0].spec.Plain? {
        assert a[1..] == Key(fields[1..], x) && b[1..] == Key(fields[1..], y);
      } else {
        assert a[1..][1..] == Key(fields[1..], x) && b[1..][1..] == Key(fields[1..], y);
      }
    }
  }

  /** For a cursor taken from any row and any number of fields, ascending, descending or
      nulls-last in any mix, the SQL predicate is the comparison. */
  lemma KeysetIsComparison(fields: seq<Field>, row: Row, last: Row)
    requires PlainPresent(fields, row)
    ensures |Key(fields, last)| == |Directions(fields)|
    ensures EvalAny(CursorPredicate(Key(fields, last), Directions(fields)), Key(fields, row)) == True
            <==> CompareKeys(Key(fields, row), Key(fields, last), Directions(fields)) == 1
  {
    KeyLength(fields, row);
    KeyLength(fields, last);
    KeysNeverNullDecided(fields, row, last);
    KeysetAgreesIff(Key(fields, last), Directions(fields), Key(fields, row));
  }

  // ----- ORDER BY

  /** PostgreSQL's order: nulls last ascending, nulls first descending. */
  function SqlCompare(a: seq<Cell>, b: seq<Cell>, dirs: seq<bool>): int {
    if a == [] || b == [] || dirs == [] then 0
    else if a[0] == b[0] then SqlCompare(a[1..], b[1..], dirs[1..])
    else if a[0].Null? then (if dirs[0] then -1 else 1)
    else if b[0].Null? then (if dirs[0] then 1 else -1)
    else if dirs[0] then (if a[0].v > b[0].v then -1 else 1)
    else if a[0].v < b[0].v then -1 else 1
  }

  /** The database and the comparison order two keys alike exactly unless a null in a
      descending column decides. */
  lemma {:induction false} OrdersAgreeIff(a: seq<Cell>, b: seq<Cell>, dirs: seq<bool>)
    requires |a| == |b| == |dirs|
    ensures SqlCompare(a, b, dirs) == CompareKeys(a, b, dirs) <==> !DescendingNullDecides(a, b, dirs)
  {
    if a != [] && a[0] == b[0] {
      OrdersAgreeIff(a[1..], b[1..], dirs[1..]);
    }
  }

  predicate DescendingNullDecides(a: seq<Cell>, b: seq<Cell>, dirs: seq<bool>) {
    |a| == |b| == |dirs| && a != [] &&
    if a[0] == b[0] then DescendingNullDecides(a[1..], b[1..], dirs[1..]) else dirs[0] && (a[0].Null? || b[0].Null?)
  }

  lemma {:induction false} RowsOrderedAlike(fields: seq<Field>, x: Row, y: Row)
    requires PlainPresent(fields, x) && PlainPresent(fields, y)
    ensures SqlCompare(Key(fields, x), Key(fields, y), Directions(fields)) == CompareKeys(Key(fields, x), Key(fields, y), Directions(fields))
  {
    KeyLength(fields, x);
    KeyLength(fields, y);
    KeysNeverNullDecided(fields, x, y);
    KeysNeverNullDecided(fields, y, x);
    OrdersAgreeIff(Key(fields, x), Key(fields, y), Directions(fields));
    NotNullDecided(Key(fields, x), Key(fields, y), Directions(fields));
  }

  lemma {:induction false} NotNullDecided(a: seq<Cell>, b: seq<Cell>, dirs: seq<bool>)
    requires |a| == |b| == |dirs| && !NullDecides(a, b) && !NullDecides(b, a)
    ensures !DescendingNullDecides(a, b, dirs)
  {
    if a != [] && a[0] == b[0] {
      NotNullDecided(a[1..], b[1..], dirs[1..]);
    }
  }
}
