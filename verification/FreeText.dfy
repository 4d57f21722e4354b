/** Free-text search (backend/src/ade_api/common/search.py): a query becomes tokens, tokens
    become `ILIKE` patterns over the searchable columns, and lists held in memory are matched
    directly.  White space and the case fold are parameters. */
module FreeText {
  import opened Wrappers
  import opened Listing

  const MAX_QUERY_LENGTH := 200
  const MAX_QUERY_TOKENS := 8
  const MIN_QUERY_TOKEN_LENGTH := 2

  // ----- Words of a query

  predicate IsWord(w: string, space: char -> bool) {
    w != [] && forall i :: 0 <= i < |w| ==> !space(w[i])
  }

  predicate AllWords(ws: seq<string>, space: char -> bool) {
    forall i :: 0 <= i < |ws| ==> IsWord(ws[i], space)
  }

  function WordLength(s: string, space: char -> bool): (n: nat)
    ensures n <= |s|
    ensures forall i :: 0 <= i < n ==> !space(s[i])
    ensures n < |s| ==> space(s[n])
  {
    if s == [] || space(s[0]) then 0 else 1 + WordLength(s[1..], space)
  }

  /** `str.split()`. */
  function Split(s: string, space: char -> bool): (ws: seq<string>)
    ensures AllWords(ws, space)
    decreases |s|
  {
    if s == [] then []
    else if space(s[0]) then Split(s[1..], space)
    else
      var n := WordLength(s, space);
      [s[..n]] + Split(s[n..], space)
  }

  /** `" ".join(words)`. */
  function Join(ws: seq<string>): string {
    if |ws| == 0 then "" else if |ws| == 1 then ws[0] else ws[0] + " " + Join(ws[1..])
  }

  function TrimLeft(s: string, space: char -> bool): string {
    if s != [] && space(s[0]) then TrimLeft(s[1..], space) else s
  }

  function TrimRight(s: string, space: char -> bool): string {
    if s != [] && space(s[|s| - 1]) then TrimRight(s[..|s| - 1], space) else s
  }

  lemma {:induction false} SplitTrimLeft(s: string, space: char -> bool)
    ensures Split(TrimLeft(s, space), space) == Split(s, space)
  {
    if s != [] && space(s[0]) {
      SplitTrimLeft(s[1..], space);
    }
  }

  lemma {:induction false} WordLengthOfAppend(s: string, c: char, space: char -> bool)
    requires space(c)
    ensures WordLength(s + [c], space) == WordLength(s, space)
  {
    if s != [] && !space(s[0]) {
      assert (s + [c])[1..] == s[1..] + [c];
      WordLengthOfAppend(s[1..], c, space);
    }
  }

  lemma {:induction false} SplitDropsLastSpace(s: string, c: char, space: char -> bool)
    requires space(c)
    ensures Split(s + [c], space) == Split(s, space)
    decreases |s|
  {
    if s == [] {
      assert (s + [c])[1..] == [];
    } else if space(s[0]) {
      assert (s + [c])[1..] == s[1..] + [c];
      SplitDropsLastSpace(s[1..], c, space);
    } else {
      var n := WordLength(s, space);
      WordLengthOfAppend(s, c, space);
      assert (s + [c])[..n] == s[..n] && (s + [c])[n..] == s[n..] + [c];
      SplitDropsLastSpace(s[n..], c, space);
    }
  }

  lemma {:induction false} SplitTrimRight(s: string, space: char -> bool)
    ensures Split(TrimRight(s, space), space) == Split(s, space)
  {
    if s != [] && space(s[|s| - 1]) {
      SplitTrimRight(s[..|s| - 1], space);
      assert s[..|s| - 1] + [s[|s| - 1]] == s;
      SplitDropsLastSpace(s[..|s| - 1], s[|s| - 1], space);
    }
  }

  /** A word, alone or before a space, is cut off whole. */
  lemma {:induction false} WordLengthOfWord(w: string, rest: string, space: char -> bool)
    requires forall i :: 0 <= i < |w| ==> !space(w[i])
    requires rest == [] || space(rest[0])
    ensures WordLength(w + rest, space) == |w|
  {
    if w == [] {
      assert w + rest == rest;
    } else {
      assert (w + rest)[1..] == w[1..] + rest;
      WordLengthOfWord(w[1..], rest, space);
    }
  }

  /** Splitting undoes joining. */
  lemma {:induction false} SplitOfJoin(ws: seq<string>, space: char -> bool)
    requires space(' ') && AllWords(ws, space)
    ensures Split(Join(ws), space) == ws
  {
    if |ws| > 0 {
      var rest := if |ws| == 1 then "" else " " + Join(ws[1..]);
      assert Join(ws) == ws[0] + rest;
      WordLengthOfWord(ws[0], rest, space);
      assert Join(ws)[..|ws[0]|] == ws[0] && Join(ws)[|ws[0]|..] == rest;
      SplitOfJoin(ws[1..], space);
      if |ws| > 1 {
        assert rest[1..] == Join(ws[1..]);
      }
    }
  }

  /** `normalize_q`. */
  function Normalize(q: Option<string>, space: char -> bool): Option<string> {
    match q
    case None => None
    case Some(text) =>
      var candidate := Join(Split(TrimRight(TrimLeft(text, space), space), space));
      if candidate == "" then None else Some(candidate)
  }

  function LongEnough(ws: seq<string>): seq<string> {
    if ws == [] then []
    else if |ws[0]| >= MIN_QUERY_TOKEN_LENGTH then [ws[0]] + LongEnough(ws[1..])
    else LongEnough(ws[1..])
  }

  /** `tokenize_q`. */
  function Tokenize(q: Option<string>, space: char -> bool): seq<string> {
    match Normalize(q, space)
    case None => []
    case Some(normalized) => LongEnough(Split(normalized, space))
  }

  datatype ParsedQuery = ParsedQuery(normalized: Option<string>, tokens: seq<string>)

  datatype QueryError = TooLong | TooManyTokens | NotSearchable(resource: string)

  /** `parse_q`. */
  function ParseQ(q: Option<string>, space: char -> bool): Result<ParsedQuery, QueryError> {
    var normalized := Normalize(q, space);
    if normalized.Some? && |normalized.value| > MAX_QUERY_LENGTH then Err(TooLong)
    else
      var tokens := Tokenize(normalized, space);
      if |tokens| > MAX_QUERY_TOKENS then Err(TooManyTokens) else Ok(ParsedQuery(normalized, tokens))
  }

  function WordsOf(q: Option<string>, space: char -> bool): (ws: seq<string>)
    ensures AllWords(ws, space)
  {
    if q.None? then [] else Split(q.value, space)
  }

  lemma NormalizeKeepsWords(q: Option<string>, space: char -> bool)
    requires space(' ')
    ensures var ws := WordsOf(q, space);
            Normalize(q, space) == (if ws == [] then None else Some(Join(ws))) && WordsOf(Normalize(q, space), space) == ws
  {
    if q.Some? {
      SplitTrimLeft(q.value, space);
      SplitTrimRight(TrimLeft(q.value, space), space);
      var ws := Split(q.value, space);
      SplitOfJoin(ws, space);
      assert ws != [] ==> |Join(ws)| >= |ws[0]|;
    }
  }

  lemma {:induction false} LongEnoughWords(ws: seq<string>)
    ensures forall t :: t in LongEnough(ws) <==> t in ws && |t| >= MIN_QUERY_TOKEN_LENGTH
    ensures |LongEnough(ws)| <= |ws|
  {
    if ws != [] {
      LongEnoughWords(ws[1..]);
      assert ws == [ws[0]] + ws[1..];
    }
  }

  /** Words of two characters or more stay, in their order. */
  lemma {:induction false} LongEnoughKeepsOrder(ws: seq<string>, w: string)
    ensures LongEnough(ws + [w]) == LongEnough(ws) + if |w| >= 2 then [w] else []
  {
    if ws == [] {
      assert ws + [w] == [w] && [w][1..] == [];
    } else {
      assert (ws + [w])[1..] == ws[1..] + [w];
      LongEnoughKeepsOrder(ws[1..], w);
    }
  }

  /** Only the words of a query count: two queries with the same words parse alike, the
      limits apply to the joined words, and every token is a word of at least two characters. */
  lemma ParseSeesWords(q: Option<string>, space: char -> bool)
    requires space(' ')
    ensures var ws := WordsOf(q, space);
            match ParseQ(q, space)
            case Err(TooLong) => |Join(ws)| > 200
            case Err(TooManyTokens) => |Join(ws)| <= 200 && |LongEnough(ws)| > 8
            case Err(NotSearchable(_)) => false
            case Ok(p) =>
              && |Join(ws)| <= 200 && |p.tokens| <= 8
              && p.tokens == LongEnough(ws) && p.normalized == (if ws == [] then None else Some(Join(ws)))
              && forall t :: t in p.tokens <==> t in ws && |t| >= 2
  {
    NormalizeKeepsWords(q, space);
    NormalizeKeepsWords(Normalize(q, space), space);
    LongEnoughWords(WordsOf(q, space));
  }

  /** Parsing the normalized form again changes nothing. */
  lemma ReparseIsSame(q: Option<string>, space: char -> bool)
    requires space(' ') && ParseQ(q, space).Ok?
    ensures ParseQ(ParseQ(q, space).value.normalized, space) == ParseQ(q, space)
  {
    ParseSeesWords(q, space);
    NormalizeKeepsWords(q, space);
    ParseSeesWords(Normalize(q, space), space);
    NormalizeKeepsWords(Normalize(q, space), space);
  }

  // ----- LIKE patterns

  predicate Special(c: char) {
    c == '\\' || c == '%' || c == '_'
  }

  /** `str.replace` of one character. */
  function Replace(s: string, c: char, into: string): string {
    if s == [] then [] else (if s[0] == c then into else [s[0]]) + Replace(s[1..], c, into)
  }

  /** `escape_like`. */
  function EscapeLike(token: string): string {
    Replace(Replace(Replace(token, '\\', "\\\\"), '%', "\\%"), '_', "\\_")
  }

  /** Every special character with a backslash before it. */
  function Escaped(s: string): string {
    if s == [] then [] else (if Special(s[0]) then ['\\', s[0]] else [s[0]]) + Escaped(s[1..])
  }

  lemma {:induction false} ReplaceOfAppend(a: string, b: string, c: char, into: string)
    ensures Replace(a + b, c, into) == Replace(a, c, into) + Replace(b, c, into)
  {
    if a == [] {
      assert a + b == b;
    } else {
      assert (a + b)[1..] == a[1..] + b;
      ReplaceOfAppend(a[1..], b, c, into);
    }
  }

  lemma {:induction false} ReplaceAbsent(s: string, c: char, into: string)
    requires c !in s
    ensures Replace(s, c, into) == s
  {
    if s != [] {
      ReplaceAbsent(s[1..], c, into);
    }
  }

  lemma EscapeOneChar(x: char)
    ensures EscapeLike([x]) == Escaped([x]) == if Special(x) then ['\\', x] else [x]
  {
    forall c: char, into: string
      ensures Replace([x], c, into) == if x == c then into else [x]
    {
      assert [x][1..] == [];
    }
    assert [x][1..] == [];
    if x == '\\' {
      ReplaceAbsent("\\\\", '%', "\\%");
      ReplaceAbsent("\\\\", '_', "\\_");
    } else if x == '%' {
      ReplaceAbsent("\\%", '_', "\\_");
    }
  }

  /** The three replacements, in their order, escape each character once. */
  lemma {:induction false} EscapeLikeIsOnePass(token: string)
    ensures EscapeLike(token) == Escaped(token)
  {
    if token != [] {
      var head, tail := [token[0]], token[1..];
      assert token == head + tail && Escaped(head) == if Special(token[0]) then ['\\', token[0]] else [token[0]];
      ReplaceOfAppend(head, tail, '\\', "\\\\");
      ReplaceOfAppend(Replace(head, '\\', "\\\\"), Replace(tail, '\\', "\\\\"), '%', "\\%");
      ReplaceOfAppend(Replace(Replace(head, '\\', "\\\\"), '%', "\\%"), Replace(Replace(tail, '\\', "\\\\"), '%', "\\%"), '_', "\\_");
      EscapeOneChar(token[0]);
      EscapeLikeIsOnePass(tail);
    }
  }

  /** SQL `LIKE` with `\` as escape character. */
  predicate Like(pattern: string, s: string)
    decreases |pattern| + |s|
  {
    if pattern == [] then s == []
    else if pattern[0] == '%' then Like(pattern[1..], s) || (s != [] && Like(pattern, s[1..]))
    else if pattern[0] == '_' then s != [] && Like(pattern[1..], s[1..])
    else if pattern[0] == '\\' then |pattern| > 1 && s != [] && s[0] == pattern[1] && Like(pattern[2..], s[1..])
    else s != [] && s[0] == pattern[0] && Like(pattern[1..], s[1..])
  }

  /** `t in s`. */
  predicate Contains(s: string, t: string) {
    exists i :: 0 <= i <= |s| && StartsAt(s, t, i)
  }

  predicate StartsAt(s: string, t: string, i: int) {
    0 <= i <= |s| && t <= s[i..]
  }

  lemma {:induction false} AnythingIsLike(s: string)
    ensures Like("%", s)
  {
    if s == [] {
      assert "%"[1..] == [];
    } else {
      AnythingIsLike(s[1..]);
    }
  }

  lemma {:induction false} PrefixIsLike(t: string, s: string)
    ensures Like(Escaped(t) + "%", s) <==> t <= s
  {
    if t == [] {
      assert Escaped(t) + "%" == "%";
      AnythingIsLike(s);
    } else {
      var head := if Special(t[0]) then ['\\', t[0]] else [t[0]];
      assert Escaped(t) + "%" == head + (Escaped(t[1..]) + "%");
      assert (head + (Escaped(t[1..]) + "%"))[|head|..] == Escaped(t[1..]) + "%";
      if s != [] {
        PrefixIsLike(t[1..], s[1..]);
        assert t <= s <==> t[0] == s[0] && t[1..] <= s[1..];
      }
    }
  }

  lemma {:induction false} PercentShifts(p: string, t: string, s: string)
    requires forall u: string :: |u| <= |s| ==> (Like(p, u) <==> t <= u)
    ensures Like("%" + p, s) <==> Contains(s, t)
  {
    assert ("%" + p)[1..] == p;
    if s == [] {
      assert StartsAt(s, t, 0) <==> t <= s;
      assert Contains(s, t) <==> StartsAt(s, t, 0);
    } else {
      PercentShifts(p, t, s[1..]);
      ContainsFirst(s, t);
    }
  }

  lemma ContainsFirst(s: string, t: string)
    requires s != []
    ensures Contains(s, t) <==> t <= s || Contains(s[1..], t)
  {
    assert s[0..] == s;
    if i :| 0 <= i <= |s| && StartsAt(s, t, i) {
      if i > 0 {
        assert s[i..] == s[1..][i - 1..];
        assert StartsAt(s[1..], t, i - 1);
      }
    }
    if t <= s {
      assert StartsAt(s, t, 0);
    }
    if i :| 0 <= i < |s| && StartsAt(s[1..], t, i) {
      assert s[1..][i..] == s[i + 1..];
      assert StartsAt(s, t, i + 1);
    }
  }

  /** The pattern that `build_like_predicate` makes accepts exactly the strings that contain
      the token, whatever characters the token has. */
  lemma PatternMeansContains(t: string, s: string)
    ensures Like("%" + EscapeLike(t) + "%", s) <==> Contains(s, t)
  {
    EscapeLikeIsOnePass(t);
    forall u: string
      ensures Like(Escaped(t) + "%", u) <==> t <= u
    {
      PrefixIsLike(t, u);
    }
    PercentShifts(Escaped(t) + "%", t, s);
    assert "%" + EscapeLike(t) + "%" == "%" + (Escaped(t) + "%");
  }

  // ----- Case folding

  function Fold(s: string, fold: char -> char): (r: string)
    ensures |r| == |s|
    ensures forall i :: 0 <= i < |s| ==> r[i] == fold(s[i])
  {
    if s == [] then [] else [fold(s[0])] + Fold(s[1..], fold)
  }

  /** Folding neither touches nor makes a special character. */
  ghost predicate KeepsSpecials(fold: char -> char) {
    forall c :: (Special(c) ==> fold(c) == c) && (Special(fold(c)) ==> Special(c))
  }

  lemma {:induction false} FoldOfAppend(a: string, b: string, fold: char -> char)
    ensures Fold(a + b, fold) == Fold(a, fold) + Fold(b, fold)
  {
  }

  lemma FoldOfEscapedChar(c: char, fold: char -> char)
    requires KeepsSpecials(fold)
    ensures Fold(Escaped([c]), fold) == Escaped([fold(c)])
  {
    EscapeOneChar(c);
    EscapeOneChar(fold(c));
    assert Special('\\') && (Special(c) <==> Special(fold(c)));
  }

  lemma {:induction false} FoldOfEscaped(t: string, fold: char -> char)
    requires KeepsSpecials(fold)
    ensures Fold(Escaped(t), fold) == Escaped(Fold(t, fold))
  {
    if t != [] {
      FoldOfEscaped(t[1..], fold);
      FoldOfEscapedChar(t[0], fold);
      EscapedCons(t);
      FoldOfAppend(Escaped([t[0]]), Escaped(t[1..]), fold);
      assert Fold(t, fold)[1..] == Fold(t[1..], fold);
      EscapedCons(Fold(t, fold));
    }
  }

  lemma EscapedCons(t: string)
    requires t != []
    ensures Escaped(t) == Escaped([t[0]]) + Escaped(t[1..])
  {
    EscapeOneChar(t[0]);
  }

  /** `column ILIKE pattern ESCAPE '\'` on a value that is present: both sides folded. */
  predicate Ilike(pattern: string, s: string, fold: char -> char) {
    Like(Fold(pattern, fold), Fold(s, fold))
  }

  function PatternOf(token: string): string {
    "%" + EscapeLike(token) + "%"
  }

  lemma FoldOfPattern(t: string, fold: char -> char)
    requires KeepsSpecials(fold)
    ensures Fold(PatternOf(t), fold) == PatternOf(Fold(t, fold))
  {
    EscapeLikeIsOnePass(t);
    EscapeLikeIsOnePass(Fold(t, fold));
    FoldOfEscaped(t, fold);
    assert Special('%');
    FoldOfAppend("%" + Escaped(t), "%", fold);
    FoldOfAppend("%", Escaped(t), fold);
  }

  /** Case-insensitively too. */
  lemma IlikeMeansContains(t: string, s: string, fold: char -> char)
    requires KeepsSpecials(fold)
    ensures Ilike(PatternOf(t), s, fold) <==> Contains(Fold(s, fold), Fold(t, fold))
  {
    FoldOfPattern(t, fold);
    PatternMeansContains(Fold(t, fold), Fold(s, fold));
  }

  // ----- The predicate over a row, and the matcher in memory

  /** What a search field reads of a row: a column, or a column of related rows (`has`, `any`). */
  datatype Cells = Column(value: Option<string>) | Related(values: seq<Option<string>>)

  function ValuesOf(cells: Cells): seq<Option<string>> {
    if cells.Column? then [cells.value] else cells.values
  }

  function RowValues(row: seq<Cells>): seq<Option<string>> {
    if row == [] then [] else ValuesOf(row[0]) + RowValues(row[1..])
  }

  function Truthy(b: bool): Truth {
    if b then True else False
  }

  function EvalIlike(pattern: string, v: Option<string>, fold: char -> char): Truth {
    if v.None? then Unknown else Truthy(Ilike(pattern, v.value, fold))
  }

  /** NULL in a column is unknown; an `EXISTS` over related rows is never unknown. */
  function EvalField(pattern: string, cells: Cells, fold: char -> char): Truth {
    match cells
    case Column(v) => EvalIlike(pattern, v, fold)
    case Related(vs) => Truthy(exists i :: 0 <= i < |vs| && EvalIlike(pattern, vs[i], fold) == True)
  }

  /** `or_` of one pattern over all the fields. */
  function EvalSome(pattern: string, row: seq<Cells>, fold: char -> char): Truth {
    if row == [] then False else Or3(EvalField(pattern, row[0], fold), EvalSome(pattern, row[1..], fold))
  }

  /** `and_` of those. */
  function EvalEvery(patterns: seq<string>, row: seq<Cells>, fold: char -> char): Truth {
    if patterns == [] then True else And3(EvalSome(patterns[0], row, fold), EvalEvery(patterns[1..], row, fold))
  }

  function PatternsOf(tokens: seq<string>): (ps: seq<string>)
    ensures |ps| == |tokens|
    ensures forall i :: 0 <= i < |tokens| ==> ps[i] == PatternOf(tokens[i])
  {
    seq(|tokens|, i requires 0 <= i < |tokens| => PatternOf(tokens[i]))
  }

  predicate ValueHas(v: Option<string>, t: string, fold: char -> char) {
    v.Some? && Contains(Fold(v.value, fold), Fold(t, fold))
  }

  predicate SomeHas(values: seq<Option<string>>, t: string, fold: char -> char) {
    exists i :: 0 <= i < |values| && ValueHas(values[i], t, fold)
  }

  lemma SomeHasOfAppend(a: seq<Option<string>>, b: seq<Option<string>>, t: string, fold: char -> char)
    ensures SomeHas(a + b, t, fold) <==> SomeHas(a, t, fold) || SomeHas(b, t, fold)
  {
    if i :| 0 <= i < |a| && ValueHas(a[i], t, fold) {
      assert ValueHas((a + b)[i], t, fold);
    }
    if i :| 0 <= i < |b| && ValueHas(b[i], t, fold) {
      assert ValueHas((a + b)[|a| + i], t, fold);
    }
  }

  lemma FieldMeansHas(t: string, cells: Cells, fold: char -> char)
    requires KeepsSpecials(fold)
    ensures EvalField(PatternOf(t), cells, fold) == True <==> SomeHas(ValuesOf(cells), t, fold)
  {
    var vs := ValuesOf(cells);
    forall i | 0 <= i < |vs|
      ensures EvalIlike(PatternOf(t), vs[i], fold) == True <==> ValueHas(vs[i], t, fold)
    {
      if vs[i].Some? {
        IlikeMeansContains(t, vs[i].value, fold);
      }
    }
    assert cells.Column? ==> vs == [cells.value] && vs[0] == cells.value;
  }

  lemma {:induction false} SomeMeansHas(t: string, row: seq<Cells>, fold: char -> char)
    requires KeepsSpecials(fold)
    ensures EvalSome(PatternOf(t), row, fold) == True <==> SomeHas(RowValues(row), t, fold)
  {
    if row != [] {
      FieldMeansHas(t, row[0], fold);
      SomeMeansHas(t, row[1..], fold);
      SomeHasOfAppend(ValuesOf(row[0]), RowValues(row[1..]), t, fold);
    }
  }

  lemma PatternsCons(tokens: seq<string>)
    requires tokens != []
    ensures PatternsOf(tokens)[0] == PatternOf(tokens[0]) && PatternsOf(tokens)[1..] == PatternsOf(tokens[1..])
    ensures forall t :: t in tokens <==> t == tokens[0] || t in tokens[1..]
  {
    assert tokens == [tokens[0]] + tokens[1..];
  }

  /** The predicate is TRUE on a row exactly when each token is in some value of the row. */
  lemma {:induction false} PredicateMeansAllFound(tokens: seq<string>, row: seq<Cells>, fold: char -> char)
    requires KeepsSpecials(fold)
    ensures EvalEvery(PatternsOf(tokens), row, fold) == True <==> forall t :: t in tokens ==> SomeHas(RowValues(row), t, fold)
  {
    if tokens != [] {
      SomeMeansHas(tokens[0], row, fold);
      PatternsCons(tokens);
      PredicateMeansAllFound(tokens[1..], row, fold);
    }
  }

  /** What `matches_tokens` answers: every token is in some value that is not empty. */
  predicate Matches(tokens: seq<string>, values: seq<Option<string>>, fold: char -> char) {
    forall t :: t in tokens ==> FoundIn(t, values, fold)
  }

  predicate FoundIn(t: string, values: seq<Option<string>>, fold: char -> char) {
    exists i :: 0 <= i < |values| && values[i] != Some("") && ValueHas(values[i], t, fold)
  }

  /** `[value.lower() for value in values if value]`. */
  function Present(values: seq<Option<string>>, fold: char -> char): seq<string> {
    if values == [] then []
    else (if values[0].Some? && values[0].value != "" then [Fold(values[0].value, fold)] else []) + Present(values[1..], fold)
  }

  /** `any(token_value in candidate for candidate in normalized)`. */
  predicate AnyContains(candidates: seq<string>, wanted: string) {
    exists k :: 0 <= k < |candidates| && Contains(candidates[k], wanted)
  }

  lemma FoundInCons(t: string, values: seq<Option<string>>, fold: char -> char)
    requires values != []
    ensures FoundIn(t, values, fold) <==> (values[0] != Some("") && ValueHas(values[0], t, fold)) || FoundIn(t, values[1..], fold)
  {
    if i :| 0 < i < |values| && values[i] != Some("") && ValueHas(values[i], t, fold) {
      assert values[1..][i - 1] == values[i];
    }
    if i :| 0 <= i < |values[1..]| && values[1..][i] != Some("") && ValueHas(values[1..][i], t, fold) {
      assert values[i + 1] == values[1..][i];
    }
  }

  lemma AnyContainsCons(c: string, candidates: seq<string>, wanted: string)
    ensures AnyContains([c] + candidates, wanted) <==> Contains(c, wanted) || AnyContains(candidates, wanted)
  {
    var all := [c] + candidates;
    if k :| 0 < k < |all| && Contains(all[k], wanted) {
      assert Contains(candidates[k - 1], wanted);
    }
    if k :| 0 <= k < |candidates| && Contains(candidates[k], wanted) {
      assert Contains(all[k + 1], wanted);
    }
    assert all[0] == c;
  }

  lemma {:induction false} PresentFinds(t: string, values: seq<Option<string>>, fold: char -> char)
    ensures AnyContains(Present(values, fold), Fold(t, fold)) <==> FoundIn(t, values, fold)
  {
    if values != [] {
      PresentFinds(t, values[1..], fold);
      FoundInCons(t, values, fold);
      if values[0].Some? && values[0].value != "" {
        AnyContainsCons(Fold(values[0].value, fold), Present(values[1..], fold), Fold(t, fold));
      } else {
        assert [] + Present(values[1..], fold) == Present(values[1..], fold);
      }
    }
  }

  /** `matches_tokens`. */
  method MatchesTokens(tokens: seq<string>, values: seq<Option<string>>, fold: char -> char) returns (matches: bool)
    ensures matches == Matches(tokens, values, fold)
  {
    if tokens == [] {
      return true;
    }
    var normalized := Present(values, fold);
    var n := 0;
    while n < |tokens|
      invariant 0 <= n <= |tokens|
      invariant forall k :: 0 <= k < n ==> FoundIn(tokens[k], values, fold)
    {
      PresentFinds(tokens[n], values, fold);
      if !AnyContains(normalized, Fold(tokens[n], fold)) {
        return false;
      }
      n := n + 1;
    }
    return true;
  }

  /** An empty token is in every value, so the SQL form also accepts an empty value for it. */
  lemma NonEmptyTokenSkipsEmpty(t: string, values: seq<Option<string>>, fold: char -> char)
    requires t != ""
    ensures SomeHas(values, t, fold) <==> FoundIn(t, values, fold)
  {
    if i :| 0 <= i < |values| && ValueHas(values[i], t, fold) {
      assert values[i] != Some("");
    }
  }

  /** With tokens of at least one character, which is what `parse_q` gives, the two forms agree
      on every row: any number of fields, any nulls, any characters. */
  lemma PredicateIsMatcher(tokens: seq<string>, row: seq<Cells>, fold: char -> char)
    requires KeepsSpecials(fold) && "" !in tokens
    ensures EvalEvery(PatternsOf(tokens), row, fold) == True <==> Matches(tokens, RowValues(row), fold)
  {
    PredicateMeansAllFound(tokens, row, fold);
    forall t | t in tokens
      ensures SomeHas(RowValues(row), t, fold) <==> FoundIn(t, RowValues(row), fold)
    {
      NonEmptyTokenSkipsEmpty(t, RowValues(row), fold);
    }
  }

  /** Tokens handed over directly may be empty.  The two forms agree on all rows exactly when
      there is no token, or one that is not empty: with only empty tokens the row whose one
      value is the empty string is selected by the predicate and refused by the matcher. */
  lemma FormsAgreeIff(tokens: seq<string>, fold: char -> char)
    requires KeepsSpecials(fold)
    ensures (forall row :: EvalEvery(PatternsOf(tokens), row, fold) == True <==> Matches(tokens, RowValues(row), fold))
       <==> tokens == [] || exists t :: t in tokens && t != ""
  {
    if tokens == [] || exists t :: t in tokens && t != "" {
      forall row: seq<Cells>
        ensures EvalEvery(PatternsOf(tokens), row, fold) == True <==> Matches(tokens, RowValues(row), fold)
      {
        PredicateMeansAllFound(tokens, row, fold);
        MatcherIgnoresEmptyTokens(tokens, RowValues(row), fold);
      }
    } else {
      OnlyEmptyTokensDiffer(tokens, fold);
    }
  }

  lemma MatcherIgnoresEmptyTokens(tokens: seq<string>, values: seq<Option<string>>, fold: char -> char)
    requires tokens == [] || exists t :: t in tokens && t != ""
    ensures Matches(tokens, values, fold) <==> forall t :: t in tokens ==> SomeHas(values, t, fold)
  {
    forall t | t in tokens && t != ""
      ensures SomeHas(values, t, fold) <==> FoundIn(t, values, fold)
    {
      NonEmptyTokenSkipsEmpty(t, values, fold);
    }
    if t :| t in tokens && t != "" && FoundIn(t, values, fold) {
      EmptyTokenFound(t, values, fold);
    }
  }

  lemma EmptyTokenFound(t: string, values: seq<Option<string>>, fold: char -> char)
    requires FoundIn(t, values, fold)
    ensures FoundIn("", values, fold) && SomeHas(values, "", fold)
  {
    var i :| 0 <= i < |values| && values[i] != Some("") && ValueHas(values[i], t, fold);
    assert StartsAt(Fold(values[i].value, fold), Fold("", fold), 0);
    assert ValueHas(values[i], "", fold);
  }

  lemma OnlyEmptyTokensDiffer(tokens: seq<string>, fold: char -> char)
    requires KeepsSpecials(fold) && tokens != [] && forall t :: t in tokens ==> t == ""
    ensures var row := [Column(Some(""))];
            EvalEvery(PatternsOf(tokens), row, fold) == True && !Matches(tokens, RowValues(row), fold)
  {
    var row := [Column(Some(""))];
    assert row[1..] == [] && RowValues(row) == [Some("")];
    PredicateMeansAllFound(tokens, row, fold);
    assert StartsAt(Fold("", fold), Fold("", fold), 0);
    assert ValueHas(Some(""), "", fold) && RowValues(row)[0] == Some("");
    assert tokens[0] in tokens && !FoundIn("", RowValues(row), fold);
  }

  /** One field tested against one pattern. */
  datatype Test = Test(field: nat, pattern: string)

  function EvalTest(test: Test, row: seq<Cells>, fold: char -> char): Truth {
    if test.field >= |row| then Unknown else EvalField(test.pattern, row[test.field], fold)
  }

  function EvalOr(tests: seq<Test>, row: seq<Cells>, fold: char -> char): Truth {
    if tests == [] then False else Or3(EvalTest(tests[0], row, fold), EvalOr(tests[1..], row, fold))
  }

  function EvalQuery(query: seq<seq<Test>>, row: seq<Cells>, fold: char -> char): Truth {
    if query == [] then True else And3(EvalOr(query[0], row, fold), EvalQuery(query[1..], row, fold))
  }

  function TestsOf(token: string, fields: nat): seq<Test> {
    seq(fields, i requires 0 <= i < fields => Test(i, PatternOf(token)))
  }

  function QueryOf(tokens: seq<string>, fields: nat): seq<seq<Test>> {
    seq(|tokens|, i requires 0 <= i < |tokens| => TestsOf(tokens[i], fields))
  }

  lemma {:induction false} TestsMeanSome(token: string, row: seq<Cells>, fold: char -> char, k: nat)
    requires k <= |row|
    ensures EvalOr(TestsOf(token, |row|)[k..], row, fold) == EvalSome(PatternOf(token), row[k..], fold)
    decreases |row| - k
  {
    if k < |row| {
      TestsMeanSome(token, row, fold, k + 1);
      assert TestsOf(token, |row|)[k..][0] == Test(k, PatternOf(token));
      assert TestsOf(token, |row|)[k..][1..] == TestsOf(token, |row|)[k + 1..] && row[k..][1..] == row[k + 1..];
    }
  }

  lemma {:induction false} QueryMeansEvery(tokens: seq<string>, row: seq<Cells>, fold: char -> char)
    ensures EvalQuery(QueryOf(tokens, |row|), row, fold) == EvalEvery(PatternsOf(tokens), row, fold)
  {
    if tokens != [] {
      TestsMeanSome(tokens[0], row, fold, 0);
      assert TestsOf(tokens[0], |row|)[0..] == TestsOf(tokens[0], |row|) && row[0..] == row;
      assert QueryOf(tokens, |row|)[1..] == QueryOf(tokens[1..], |row|) && PatternsOf(tokens)[1..] == PatternsOf(tokens[1..]);
      QueryMeansEvery(tokens[1..], row, fold);
    }
  }

  /** The loop of `build_q_predicate` over the tokens. */
  method BuildQuery(tokens: seq<string>, fields: nat) returns (query: seq<seq<Test>>)
    ensures query == QueryOf(tokens, fields)
  {
    query := [];
    for i := 0 to |tokens|
      invariant |query| == i && forall k :: 0 <= k < i ==> query[k] == TestsOf(tokens[k], fields)
    {
      query := query + [TestsOf(tokens[i], fields)];
    }
  }

  /** `build_q_predicate`: for each token one alternative per field of the resource, and no
      predicate at all when the query has no tokens.  `registry` counts the fields. */
  method BuildQPredicate(resource: string, q: Option<string>, registry: map<string, nat>, space: char -> bool)
    returns (r: Result<Option<seq<seq<Test>>>, QueryError>)
    ensures match ParseQ(q, space)
            case Err(e) => r == Err(e)
            case Ok(p) =>
              r == if p.tokens == [] then Ok(None)
                   else if resource !in registry || registry[resource] == 0 then Err(NotSearchable(resource))
                   else Ok(Some(QueryOf(p.tokens, registry[resource])))
  {
    var parsed := ParseQ(q, space);
    if parsed.Err? {
      return Err(parsed.error);
    }
    var tokens := parsed.value.tokens;
    if tokens == [] {
      return Ok(None);
    }
    if resource !in registry || registry[resource] == 0 {
      return Err(NotSearchable(resource));
    }
    var query := BuildQuery(tokens, registry[resource]);
    return Ok(Some(query));
  }

  /** A searched listing in SQL and the same search in memory select the same rows. */
  lemma QueryMeansMatches(q: Option<string>, row: seq<Cells>, space: char -> bool, fold: char -> char)
    requires space(' ') && KeepsSpecials(fold) && ParseQ(q, space).Ok?
    ensures var tokens := ParseQ(q, space).value.tokens;
            EvalQuery(QueryOf(tokens, |row|), row, fold) == True <==> Matches(tokens, RowValues(row), fold)
  {
    var tokens := ParseQ(q, space).value.tokens;
    ParseSeesWords(q, space);
    QueryMeansEvery(tokens, row, fold);
    PredicateIsMatcher(tokens, row, fold);
  }
}
