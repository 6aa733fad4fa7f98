/** Every access path agrees with the scan: primary key lookup, secondary index lookup and full-text
    intersection return the row ids a scan returns, in the same order. */
module AccessPaths {
  import opened Basics
  import opened Values
  import opened Codec
  import opened Ast
  import opened Tables
  import opened TableFacts
  import opened Selects

  // ---------------------------------------------------------------- equality

  /** The rows that hold exactly this value, bit for bit, in a column. */
  function ExactIds(rows: map<nat, Row>, column: string, v: Value): set<nat> {
    set id | id in rows && column in rows[id] && rows[id][column] == v
  }

  function EqualIds(rows: map<nat, Row>, column: string, v: Value): set<nat> {
    set id | id in rows && column in rows[id] && SameNumber(rows[id][column], v)
  }

  lemma PostingIsExact(rows: map<nat, Row>, column: string, v: Value)
    requires ColumnIndexable(rows, column) && Finite(v)
    ensures IndexKey(v).Ok?
    ensures Posting(BuildEntries(rows, column), IndexKey(v).value) == ExactIds(rows, column, v)
  {
    IndexKeyNamesValue(v);
    var key := IndexKey(v).value;
    forall id | id in rows && column in rows[id]
      ensures KeyAt(rows[id], column) == key <==> rows[id][column] == v
    {
      IndexKeyInjective(rows[id][column], v);
      IndexKeyNamesValue(rows[id][column]);
    }
    forall id | id in ExactIds(rows, column, v) ensures key in KeysOn(rows, column) {
      assert KeyAt(rows[id], column) == key;
    }
    assert key !in KeysOn(rows, column) ==> ExactIds(rows, column, v) == {};
  }

  lemma PrimaryIsExact(rows: map<nat, Row>, pk: string, v: Value)
    requires PrimaryOk(rows, pk) && Finite(v)
    ensures IndexKey(v).Ok?
    ensures var found := BuildPrimary(rows, pk);
            (if IndexKey(v).value in found then [found[IndexKey(v).value]] else []) == Ascending(ExactIds(rows, pk, v))
  {
    IndexKeyNamesValue(v);
    var key := IndexKey(v).value;
    var found := BuildPrimary(rows, pk);
    forall id | id in rows ensures KeyAt(rows[id], pk) == key <==> rows[id][pk] == v {
      IndexKeyInjective(rows[id][pk], v);
      IndexKeyNamesValue(rows[id][pk]);
    }
    forall id | id in ExactIds(rows, pk, v) ensures key in found && found[key] == id {
      assert KeyAt(rows[id], pk) == key;
    }
    if key in found {
      assert found[key] in ExactIds(rows, pk, v);
      AscendingOf([found[key]], ExactIds(rows, pk, v));
    } else {
      AscendingOf([], ExactIds(rows, pk, v));
    }
  }

  /** Whether an equality on this column is answered from an index. */
  predicate Indexed(t: Table, column: string) {
    t.primaryKey == Some(column) || IndexOn(t.indexes, column).Some?
  }

  lemma HoldsEquals(row: Row, column: string, v: Value, env: Env)
    ensures Holds(row, Some(Equals(column, v)), env) <==> column in row && SameNumber(row[column], v)
  {}

  lemma EqualityScan(rows: map<nat, Row>, column: string, v: Value, env: Env)
    ensures ScanIds(rows, Some(Equals(column, v)), env) == Ascending(EqualIds(rows, column, v))
  {
    var hits := Hits(rows, Some(Equals(column, v)), env);
    forall id ensures id in hits <==> id in EqualIds(rows, column, v) {
      if id in rows { HoldsEquals(rows[id], column, v, env); }
    }
    assert hits == EqualIds(rows, column, v);
  }

  lemma SecondaryLookup(t: Table, column: string, v: Value)
    requires Core(t) && Finite(v) && IndexOn(t.indexes, column).Some?
    ensures IndexKey(v).Ok?
    ensures Posting(t.indexes[IndexOn(t.indexes, column).value].entries, IndexKey(v).value) ==
            ExactIds(t.rows, column, v)
  {
    var n := IndexOn(t.indexes, column).value;
    assert t.indexes[n] == BuildIndexes(t.rows, t.indexes)[n];
    PostingIsExact(t.rows, column, v);
  }

  /** An index answers with the exact matches, a scan with the numerically equal ones. */
  lemma EqualsLookup(t: Table, column: string, v: Value, env: Env)
    requires Core(t) && Finite(v)
    ensures MatchEquals(t, column, v, env) ==
            Ok(Ascending(if Indexed(t, column) then ExactIds(t.rows, column, v) else EqualIds(t.rows, column, v)))
  {
    IndexKeyNamesValue(v);
    if t.primaryKey == Some(column) {
      PrimaryIsExact(t.rows, column, v);
    } else if IndexOn(t.indexes, column).Some? {
      SecondaryLookup(t, column, v);
    } else {
      EqualityScan(t.rows, column, v, env);
    }
  }

  lemma AscendingInjective(a: set<nat>, b: set<nat>)
    requires Ascending(a) == Ascending(b)
    ensures a == b
  {
    assert forall x :: x in a <==> x in Ascending(a);
    assert forall x :: x in b <==> x in Ascending(b);
  }

  /** No row holds a value that equals the wanted one as a number but has other bits. */
  predicate OneSpelling(rows: map<nat, Row>, column: string, v: Value) {
    forall id :: id in rows && column in rows[id] && SameNumber(rows[id][column], v) ==> rows[id][column] == v
  }

  lemma SpellingSets(rows: map<nat, Row>, column: string, v: Value)
    requires Finite(v)
    ensures ExactIds(rows, column, v) == EqualIds(rows, column, v) <==> OneSpelling(rows, column, v)
  {
    var exact, equal := ExactIds(rows, column, v), EqualIds(rows, column, v);
    SameNumberIsEquality(v, v);
    assert forall id :: id in exact ==> id in equal;
    if exact == equal {
      forall id | id in rows && column in rows[id] && SameNumber(rows[id][column], v) ensures rows[id][column] == v {
        assert id in equal;
      }
    }
  }

  /** An indexed equality agrees with the scan exactly when the table spells the wanted number one way. */
  lemma EqualityAgreesIff(t: Table, column: string, v: Value, env: Env)
    requires Core(t) && Finite(v) && Indexed(t, column)
    ensures MatchEquals(t, column, v, env) == Ok(ScanIds(t.rows, Some(Equals(column, v)), env)) <==>
            OneSpelling(t.rows, column, v)
  {
    EqualsLookup(t, column, v, env);
    EqualityScan(t.rows, column, v, env);
    SpellingSets(t.rows, column, v);
    if Ascending(ExactIds(t.rows, column, v)) == Ascending(EqualIds(t.rows, column, v)) {
      AscendingInjective(ExactIds(t.rows, column, v), EqualIds(t.rows, column, v));
    }
  }

  // ---------------------------------------------------------------- full text

  lemma {:induction false} IntersectMeaning(acc: set<nat>, entries: map<string, set<nat>>, tokens: seq<string>, id: nat)
    ensures id in Intersect(acc, entries, tokens) <==>
            id in acc && forall i :: 0 <= i < |tokens| ==> id in Posting(entries, tokens[i])
  {
    if tokens != [] {
      IntersectMeaning(acc * Posting(entries, tokens[0]), entries, tokens[1..], id);
      assert forall i :: 0 < i < |tokens| ==> tokens[i] == tokens[1..][i - 1];
      assert forall i :: 0 <= i < |tokens| - 1 ==> tokens[1..][i] == tokens[i + 1];
    }
  }

  lemma WordPosting(rows: map<nat, Row>, column: string, tok: string -> seq<string>, w: string, id: nat)
    ensures id in Posting(BuildWords(rows, column, tok), w) <==> id in rows && w in Words(rows[id], column, tok)
  {
    if id in rows && w in Words(rows[id], column, tok) { assert w in WordsOn(rows, column, tok); }
  }

  /** One row is in the intersection exactly when it holds every token. */
  lemma IntersectionHit(rows: map<nat, Row>, column: string, tok: string -> seq<string>, tokens: seq<string>, id: nat)
    requires tokens != []
    ensures var entries := BuildWords(rows, column, tok);
            id in Intersect(Posting(entries, tokens[0]), entries, tokens[1..]) <==>
            id in rows && forall i :: 0 <= i < |tokens| ==> tokens[i] in Words(rows[id], column, tok)
  {
    var entries := BuildWords(rows, column, tok);
    IntersectMeaning(Posting(entries, tokens[0]), entries, tokens[1..], id);
    forall i | 0 <= i < |tokens|
      ensures id in Posting(entries, tokens[i]) <==> id in rows && tokens[i] in Words(rows[id], column, tok)
    {
      WordPosting(rows, column, tok, tokens[i], id);
    }
    assert forall i :: 0 < i < |tokens| ==> tokens[i] == tokens[1..][i - 1];
    assert forall i :: 0 <= i < |tokens| - 1 ==> tokens[1..][i] == tokens[i + 1];
  }

  lemma FulltextHolds(row: Row, column: string, query: string, env: Env)
    ensures var tokens := env.tokenize(env.tokenizer, query);
            Holds(row, Some(FullText(column, query)), env) <==>
            tokens != [] && forall i :: 0 <= i < |tokens| ==> tokens[i] in Words(row, column, Tok(env, env.tokenizer))
  {
    var tokens := env.tokenize(env.tokenizer, query);
    if tokens != [] && !(column in row && row[column].Text?) {
      assert tokens[0] !in Words(row, column, Tok(env, env.tokenizer));
    }
  }

  /** A row's text has every token. */
  predicate HasWords(row: Row, column: string, tokens: seq<string>, tok: string -> seq<string>) {
    forall i :: 0 <= i < |tokens| ==> tokens[i] in Words(row, column, tok)
  }

  /** Every row has all the words of a query under one tokeniser exactly when it has them under the configured one. */
  predicate TokensAgree(rows: map<nat, Row>, column: string, query: string, env: Env, tok: string -> seq<string>) {
    var tokens := env.tokenize(env.tokenizer, query);
    tokens == [] || forall id :: id in rows ==>
      (HasWords(rows[id], column, tokens, tok) <==> HasWords(rows[id], column, tokens, Tok(env, env.tokenizer)))
  }

  /** What an index filled by a tokeniser finds. */
  function Indexwise(rows: map<nat, Row>, column: string, tokens: seq<string>, tok: string -> seq<string>): set<nat> {
    set id | id in rows && HasWords(rows[id], column, tokens, tok)
  }

  lemma FulltextLookup(t: Table, column: string, query: string, env: Env, tok: string -> seq<string>)
    requires t.fulltext == BuildFulltext(t.rows, t.fulltext, tok) && IndexOn(t.fulltext, column).Some?
    ensures var tokens := env.tokenize(env.tokenizer, query);
            tokens != [] ==> MatchFulltext(t, column, query, env) == Ascending(Indexwise(t.rows, column, tokens, tok))
  {
    hide Ascending, Words;
    var tokens := env.tokenize(env.tokenizer, query);
    if tokens != [] {
      var entries := t.fulltext[IndexOn(t.fulltext, column).value].entries;
      assert entries == BuildWords(t.rows, column, tok);
      hide BuildWords, BuildFulltext;
      var found := Intersect(Posting(entries, tokens[0]), entries, tokens[1..]);
      forall id ensures id in found <==> id in Indexwise(t.rows, column, tokens, tok) {
        IntersectionHit(t.rows, column, tok, tokens, id);
      }
      assert found == Indexwise(t.rows, column, tokens, tok);
    }
  }

  lemma FulltextScan(rows: map<nat, Row>, column: string, query: string, env: Env)
    ensures var tokens := env.tokenize(env.tokenizer, query);
            Hits(rows, Some(FullText(column, query)), env) ==
            if tokens == [] then {} else Indexwise(rows, column, tokens, Tok(env, env.tokenizer))
  {
    hide Words, Holds;
    forall id | id in rows
      ensures var tokens := env.tokenize(env.tokenizer, query);
              Holds(rows[id], Some(FullText(column, query)), env) <==>
              tokens != [] && HasWords(rows[id], column, tokens, Tok(env, env.tokenizer))
    {
      FulltextHolds(rows[id], column, query, env);
    }
  }

  /** Indexed MATCH agrees with the scan if and only if the tokeniser that filled the index and the configured one give
      each row the words of the query alike. */
  lemma FulltextAgreesIff(t: Table, column: string, query: string, env: Env, tok: string -> seq<string>)
    requires t.fulltext == BuildFulltext(t.rows, t.fulltext, tok) && IndexOn(t.fulltext, column).Some?
    ensures MatchFulltext(t, column, query, env) == ScanIds(t.rows, Some(FullText(column, query)), env) <==>
            TokensAgree(t.rows, column, query, env, tok)
  {
    hide Ascending, Words, HasWords, IndexOn, BuildFulltext, Hits, Intersect, Posting;
    var tokens := env.tokenize(env.tokenizer, query);
    FulltextScan(t.rows, column, query, env);
    FulltextLookup(t, column, query, env, tok);
    if tokens == [] {
      AscendingOf([], {});
    } else {
      var found, wanted := Indexwise(t.rows, column, tokens, tok),
                           Indexwise(t.rows, column, tokens, Tok(env, env.tokenizer));
      assert found == wanted <==> TokensAgree(t.rows, column, query, env, tok) by {
        SameFinds(t.rows, column, query, env, tok);
      }
      if Ascending(found) == Ascending(wanted) { AscendingInjective(found, wanted); }
    }
  }

  lemma SameFinds(rows: map<nat, Row>, column: string, query: string, env: Env, tok: string -> seq<string>)
    requires env.tokenize(env.tokenizer, query) != []
    ensures var tokens := env.tokenize(env.tokenizer, query);
            Indexwise(rows, column, tokens, tok) == Indexwise(rows, column, tokens, Tok(env, env.tokenizer)) <==>
            TokensAgree(rows, column, query, env, tok)
  {
    hide HasWords;
    var tokens := env.tokenize(env.tokenizer, query);
    var found, wanted := Indexwise(rows, column, tokens, tok), Indexwise(rows, column, tokens, Tok(env, env.tokenizer));
    forall id | id in rows ensures (id in found <==> HasWords(rows[id], column, tokens, tok))
                                && (id in wanted <==> HasWords(rows[id], column, tokens, Tok(env, env.tokenizer))) {}
  }

  // ---------------------------------------------------------------- all filters

  predicate NoNegativeZeros(rows: map<nat, Row>) {
    forall id, n :: id in rows && n in rows[id] ==> NoNegativeZero(rows[id][n])
  }

  lemma PlainRowsSpellOnce(rows: map<nat, Row>, column: string, v: Value)
    requires NoNegativeZeros(rows) && NoNegativeZero(v) && Finite(v)
    ensures OneSpelling(rows, column, v)
  {
    forall id | id in rows && column in rows[id] && SameNumber(rows[id][column], v) ensures rows[id][column] == v {
      SameNumberSymmetric(rows[id][column], v);
      SameNumberIsEquality(v, rows[id][column]);
    }
  }

  predicate FilterPlain(filter: Option<Filter>) {
    filter.Some? && filter.value.Equals? ==> NoNegativeZero(filter.value.value)
  }

  predicate IsMatch(filter: Option<Filter>) { filter.Some? && filter.value.FullText? }

  lemma NormalizedKind(columns: seq<Column>, filter: Option<Filter>, env: Env)
    requires NormalizeFilter(columns, filter, env).Ok?
    ensures var f := NormalizeFilter(columns, filter, env).value;
            && (f.Some? <==> filter.Some?)
            && (f.Some? ==>
                  && (f.value.Equals? <==> filter.value.Equals?)
                  && (f.value.FullText? <==> filter.value.FullText?))
            && (f.Some? && f.value.Equals? ==> Finite(f.value.value))
            && (FilterPlain(filter) ==> FilterPlain(f))
  {}

  lemma UnfilteredScan(rows: map<nat, Row>, env: Env)
    ensures ScanIds(rows, None, env) == Ascending(rows.Keys)
  {
    assert rows.Keys == Hits(rows, None, env);
  }

  /** When the access path a normalised filter takes finds what a scan finds; `tok` is the tokeniser that filled the
      full-text maps. */
  predicate PathAgrees(t: Table, filter: Option<Filter>, env: Env, tok: string -> seq<string>) {
    match filter
    case Some(Equals(column, v)) => Indexed(t, column) ==> OneSpelling(t.rows, column, v)
    case Some(FullText(column, query)) =>
      IndexOn(t.fulltext, column).Some? ==> TokensAgree(t.rows, column, query, env, tok)
    case _ => true
  }

  /** For any normalised filter, the access path gives the scan's row ids in the scan's order if and only if, for an
      indexed equality, the column spells the number one way and, for an indexed MATCH, the tokenisers agree. */
  lemma MatchAgreesIff(t: Table, filter: Option<Filter>, env: Env, tok: string -> seq<string>)
    requires Core(t) && (IsMatch(filter) ==> t.fulltext == BuildFulltext(t.rows, t.fulltext, tok))
    requires filter.Some? && filter.value.Equals? ==> Finite(filter.value.value)
    ensures MatchIds(t, filter, env) == Ok(ScanIds(t.rows, filter, env)) <==> PathAgrees(t, filter, env, tok)
  {
    hide Core, MatchEquals, MatchFulltext, ScanIds, BuildFulltext, TokensAgree, OneSpelling, Indexed;
    match filter
    case None => UnfilteredScan(t.rows, env);
    case Some(Equals(column, v)) => EqualsAgreesIff(t, column, v, env);
    case Some(FullText(column, query)) => MatchTextAgreesIff(t, column, query, env, tok);
    case Some(GeoWithin(_, _, _, _)) =>
  }

  lemma EqualsAgreesIff(t: Table, column: string, v: Value, env: Env)
    requires Core(t) && Finite(v)
    ensures MatchEquals(t, column, v, env) == Ok(ScanIds(t.rows, Some(Equals(column, v)), env)) <==>
            (Indexed(t, column) ==> OneSpelling(t.rows, column, v))
  {
    hide Core, MatchEquals, OneSpelling;
    if Indexed(t, column) {
      EqualityAgreesIff(t, column, v, env);
    } else {
      EqualsLookup(t, column, v, env);
      EqualityScan(t.rows, column, v, env);
    }
  }

  lemma MatchTextAgreesIff(t: Table, column: string, query: string, env: Env, tok: string -> seq<string>)
    requires t.fulltext == BuildFulltext(t.rows, t.fulltext, tok)
    ensures MatchFulltext(t, column, query, env) == ScanIds(t.rows, Some(FullText(column, query)), env) <==>
            (IndexOn(t.fulltext, column).Some? ==> TokensAgree(t.rows, column, query, env, tok))
  {
    hide TokensAgree, BuildFulltext, Ascending, Hits, Intersect, Posting;
    if IndexOn(t.fulltext, column).Some? {
      FulltextAgreesIff(t, column, query, env, tok);
    } else if env.tokenize(env.tokenizer, query) == [] {
      FulltextScan(t.rows, column, query, env);
      AscendingOf([], {});
    }
  }

  /** What a filter selects, defined on the rows alone. */
  function ReferenceMatching(columns: seq<Column>, rows: map<nat, Row>, filter: Option<Filter>, env: Env)
    : Result<seq<nat>, Error>
  {
    match NormalizeFilter(columns, filter, env)
    case Err(e) => Err(e)
    case Ok(f) => Ok(ScanIds(rows, f, env))
  }

  /** A lookup, normalisation included, agrees with its meaning on rows alone if and only if the filter is refused or
      the path it takes agrees. */
  lemma MatchingAgreesIff(t: Table, filter: Option<Filter>, env: Env, tok: string -> seq<string>)
    requires Core(t) && (IsMatch(filter) ==> t.fulltext == BuildFulltext(t.rows, t.fulltext, tok))
    ensures Matching(t, filter, env) == ReferenceMatching(t.columns, t.rows, filter, env) <==>
            var f := NormalizeFilter(t.columns, filter, env); f.Err? || PathAgrees(t, f.value, env, tok)
  {
    hide Core, NormalizeFilter, MatchIds, ScanIds, PathAgrees, BuildFulltext;
    if NormalizeFilter(t.columns, filter, env).Ok? {
      NormalizedKind(t.columns, filter, env);
      MatchAgreesIff(t, NormalizeFilter(t.columns, filter, env).value, env, tok);
    }
  }

  /** A condition on table and filter under which every lookup agrees: no negative zero for an equality, full-text maps
      of the configured tokeniser for a MATCH, nothing for other filters. */
  predicate Servable(t: Table, filter: Option<Filter>, env: Env) {
    match filter
    case Some(Equals(_, v)) => NoNegativeZeros(t.rows) && NoNegativeZero(v)
    case Some(FullText(_, _)) => t.fulltext == BuildFulltext(t.rows, t.fulltext, Tok(env, env.tokenizer))
    case _ => true
  }

  lemma SameTokensAgree(rows: map<nat, Row>, column: string, query: string, env: Env)
    ensures TokensAgree(rows, column, query, env, Tok(env, env.tokenizer))
  {
    hide HasWords;
  }

  lemma MatchingAgrees(t: Table, filter: Option<Filter>, env: Env)
    requires Core(t) && Servable(t, filter, env)
    ensures Matching(t, filter, env) == ReferenceMatching(t.columns, t.rows, filter, env)
  {
    hide Core, NormalizeFilter, Matching, ReferenceMatching, BuildFulltext, NoNegativeZeros, NoNegativeZero,
         OneSpelling, TokensAgree, Finite;
    MatchingAgreesIff(t, filter, env, Tok(env, env.tokenizer));
    var f := NormalizeFilter(t.columns, filter, env);
    if f.Ok? {
      NormalizedKind(t.columns, filter, env);
      match f.value
      case Some(Equals(column, v)) => PlainRowsSpellOnce(t.rows, column, v);
      case Some(FullText(column, query)) => SameTokensAgree(t.rows, column, query, env);
      case _ =>
    }
  }

  /** Tables indexed with the configured tokeniser and free of negative zeros serve every plain filter. */
  lemma WellFormedServes(t: Table, filter: Option<Filter>, env: Env)
    requires WellFormed(t, Tok(env, env.tokenizer)) && NoNegativeZeros(t.rows) && FilterPlain(filter)
    ensures Core(t) && Servable(t, filter, env)
  {
    hide Shape, PrimaryOk, ColumnIndexable, BuildPrimary, BuildIndexes, BuildFulltext, NoNegativeZero;
    WellFormedIsCore(t, Tok(env, env.tokenizer));
  }

  /** The tokeniser that filled a sound table's full-text maps. */
  function FilledBy(t: Table, env: Env): string -> seq<string> {
    if t.fulltext == BuildFulltext(t.rows, t.fulltext, Tok(env, Simple)) then Tok(env, Simple)
    else Tok(env, env.tokenizer)
  }

  /** The exact law for every table the engine holds and every filter, under every tokeniser. */
  lemma SoundMatchingIff(t: Table, filter: Option<Filter>, env: Env)
    requires Sound(t, env)
    ensures Matching(t, filter, env) == ReferenceMatching(t.columns, t.rows, filter, env) <==>
            var f := NormalizeFilter(t.columns, filter, env); f.Err? || PathAgrees(t, f.value, env, FilledBy(t, env))
  {
    hide Core, NormalizeFilter, Matching, ReferenceMatching, PathAgrees, Shape, PrimaryOk, ColumnIndexable,
         BuildPrimary, BuildIndexes, BuildFulltext;
    SoundIsCore(t, env);
    MatchingAgreesIff(t, filter, env, FilledBy(t, env));
  }

  /** The tokeniser that decides which rows have the words of a MATCH on a column. */
  function SearchedBy(t: Table, column: string, env: Env): string -> seq<string> {
    if IndexOn(t.fulltext, column).Some? then FilledBy(t, env) else Tok(env, env.tokenizer)
  }

  /** What a lookup finds, whichever path it takes: an index compares bits and knows the words of the tokeniser that
      filled it, a scan compares numbers and words of the configured one. */
  function Found(t: Table, filter: Option<Filter>, env: Env): set<nat> {
    match filter
    case Some(Equals(column, v)) =>
      if Indexed(t, column) then ExactIds(t.rows, column, v) else EqualIds(t.rows, column, v)
    case Some(FullText(column, query)) =>
      var tokens := env.tokenize(env.tokenizer, query);
      if tokens == [] then {} else Indexwise(t.rows, column, tokens, SearchedBy(t, column, env))
    case _ => Hits(t.rows, filter, env)
  }

  lemma SoundFilledBy(t: Table, env: Env)
    requires Sound(t, env)
    ensures t.fulltext == BuildFulltext(t.rows, t.fulltext, FilledBy(t, env))
  {
    hide Shape, Buildable, BuildPrimary, BuildIndexes, BuildFulltext;
  }

  lemma MatchTextFinds(t: Table, column: string, query: string, env: Env)
    requires Sound(t, env)
    ensures MatchFulltext(t, column, query, env) == Ascending(Found(t, Some(FullText(column, query)), env))
  {
    hide Sound, FilledBy, BuildFulltext, Indexwise, Hits, Intersect, Posting, IndexOn, Ascending;
    SoundFilledBy(t, env);
    if env.tokenize(env.tokenizer, query) == [] {
      AscendingOf([], {});
    } else if IndexOn(t.fulltext, column).Some? {
      FulltextLookup(t, column, query, env, FilledBy(t, env));
    } else {
      FulltextScan(t.rows, column, query, env);
    }
  }

  lemma FoundInRows(t: Table, filter: Option<Filter>, env: Env)
    ensures Found(t, filter, env) <= t.rows.Keys
  {
    hide Indexed, HasWords, SearchedBy, Holds;
  }

  /** Every access path returns exactly what it finds, by ascending row id. */
  lemma MatchIdsFind(t: Table, filter: Option<Filter>, env: Env)
    requires Sound(t, env) && (filter.Some? && filter.value.Equals? ==> Finite(filter.value.value))
    ensures MatchIds(t, filter, env) == Ok(Ascending(Found(t, filter, env)))
  {
    hide Sound, Core, MatchEquals, MatchFulltext, Ascending, Hits, Indexed, SearchedBy, EqualIds, ExactIds;
    SoundIsCore(t, env);
    match filter
    case None => UnfilteredScan(t.rows, env);
    case Some(Equals(column, v)) => EqualsLookup(t, column, v, env);
    case Some(FullText(column, query)) => MatchTextFinds(t, column, query, env);
    case Some(GeoWithin(_, _, _, _)) =>
  }

  /** The same with normalisation. */
  lemma MatchingFinds(t: Table, filter: Option<Filter>, env: Env)
    requires Sound(t, env)
    ensures var (f, m) := (NormalizeFilter(t.columns, filter, env), Matching(t, filter, env));
            && (f.Err? ==> m == Err(f.error))
            && (f.Ok? ==> m == Ok(Ascending(Found(t, f.value, env))))
  {
    hide Sound, NormalizeFilter, MatchIds, Found, Ascending;
    if NormalizeFilter(t.columns, filter, env).Ok? {
      NormalizedKind(t.columns, filter, env);
      MatchIdsFind(t, NormalizeFilter(t.columns, filter, env).value, env);
    }
  }

  /** What is found is what the filter holds of, exactly when the path agrees with the scan. */
  lemma FoundIsHitsIff(t: Table, filter: Option<Filter>, env: Env)
    requires Sound(t, env) && (filter.Some? && filter.value.Equals? ==> Finite(filter.value.value))
    ensures Found(t, filter, env) == Hits(t.rows, filter, env) <==> PathAgrees(t, filter, env, FilledBy(t, env))
  {
    hide Sound, Core, MatchIds, Found, Hits, Ascending, PathAgrees, FilledBy, BuildFulltext;
    SoundIsCore(t, env);
    SoundFilledBy(t, env);
    MatchIdsFind(t, filter, env);
    MatchAgreesIff(t, filter, env, FilledBy(t, env));
    if Ascending(Found(t, filter, env)) == Ascending(Hits(t.rows, filter, env)) {
      AscendingInjective(Found(t, filter, env), Hits(t.rows, filter, env));
    }
  }

  /** With the simple tokeniser a sound table serves every plain filter. */
  lemma SimpleServes(t: Table, filter: Option<Filter>, env: Env)
    requires Sound(t, env) && env.tokenizer == Simple && NoNegativeZeros(t.rows) && FilterPlain(filter)
    ensures Core(t) && Servable(t, filter, env)
  {
    hide WellFormed, NoNegativeZeros, FilterPlain, Core, Servable;
    WellFormedServes(t, filter, env);
  }

  // ---------------------------------------------------------------- matched ids are rows

  lemma MatchFulltextInRows(t: Table, column: string, query: string, env: Env, tok: string -> seq<string>)
    requires t.fulltext == BuildFulltext(t.rows, t.fulltext, tok)
    ensures forall id :: id in MatchFulltext(t, column, query, env) ==> id in t.rows
  {
    var tokens := env.tokenize(env.tokenizer, query);
    if tokens != [] && IndexOn(t.fulltext, column).Some? {
      var entries := t.fulltext[IndexOn(t.fulltext, column).value].entries;
      assert entries == BuildWords(t.rows, column, tok);
      forall id | id in MatchFulltext(t, column, query, env) ensures id in t.rows {
        IntersectMeaning(Posting(entries, tokens[0]), entries, tokens[1..], id);
        WordPosting(t.rows, column, tok, tokens[0], id);
      }
    }
  }

  /** Whatever tokeniser filled the full-text maps, a matched id is the id of a row. */
  lemma MatchingInRows(t: Table, filter: Option<Filter>, env: Env)
    requires Sound(t, env) && Matching(t, filter, env).Ok?
    ensures forall id :: id in Matching(t, filter, env).value ==> id in t.rows
  {
    var f := NormalizeFilter(t.columns, filter, env).value;
    match f
    case None =>
    case Some(Equals(column, v)) => EqualsLookup(t, column, v, env);
    case Some(FullText(column, query)) =>
      if WellFormed(t, Tok(env, Simple)) {
        MatchFulltextInRows(t, column, query, env, Tok(env, Simple));
      } else {
        MatchFulltextInRows(t, column, query, env, Tok(env, env.tokenizer));
      }
    case Some(GeoWithin(_, _, _, _)) =>
  }

  lemma {:induction false} ScoredInRows(rows: map<nat, Row>, ids: seq<nat>, column: string, target: seq<F32>, env: Env)
    requires ScorePass(rows, ids, column, target, env).Ok?
    ensures forall p :: p in ScorePass(rows, ids, column, target, env).value ==> p.1 in rows
  {
    if ids != [] { ScoredInRows(rows, ids[1..], column, target, env); }
  }

  lemma OrderedInRows(t: Table, ids: seq<nat>, order: Option<Order>, env: Env)
    requires OrderedIds(t, ids, order, env).Ok? && forall id :: id in ids ==> id in t.rows
    ensures forall id :: id in OrderedIds(t, ids, order, env).value ==> id in t.rows
  {
    if order.Some? {
      var o := order.value;
      ScoredInRows(t.rows, ids, o.column, o.target, env);
      var scored := ScorePass(t.rows, ids, o.column, o.target, env).value;
      var sorted := SortScored(scored, o.descending);
      forall i | 0 <= i < |sorted| ensures sorted[i].1 in t.rows {
        assert sorted[i] in multiset(sorted);
        assert sorted[i] in multiset(scored);
      }
    }
  }

  lemma SelectedInRows(t: Table, projection: Projection, filter: Option<Filter>, order: Option<Order>, env: Env)
    requires Sound(t, env) && SelectIds(t, projection, filter, order, env).Ok?
    ensures forall id :: id in SelectIds(t, projection, filter, order, env).value ==> id in t.rows
  {
    MatchingInRows(t, filter, env);
    OrderedInRows(t, Matching(t, filter, env).value, order, env);
  }

  lemma LimitRows(rows: map<nat, Row>, ids: seq<nat>, projection: Projection, k: nat)
    requires forall id :: id in ids ==> id in rows
    ensures var full := ProjectAll(rows, Limited(ids, None), projection);
            ProjectAll(rows, Limited(ids, Some(k)), projection) == if k < |full| then full[..k] else full
  {
    ProjectAllPrefix(rows, ids, projection, if k < |ids| then k else |ids|);
  }

  /** LIMIT k returns the first k rows of the same query without a limit. */
  lemma LimitIsPrefix(t: Table, projection: Projection, filter: Option<Filter>, order: Option<Order>, k: nat, env: Env)
    requires Sound(t, env)
    ensures var full := SelectRows(t, projection, filter, order, None, env);
            SelectRows(t, projection, filter, order, Some(k), env) ==
            if full.Err? then full else Ok(if k < |full.value| then full.value[..k] else full.value)
  {
    var selected := SelectIds(t, projection, filter, order, env);
    if selected.Ok? {
      SelectedInRows(t, projection, filter, order, env);
      LimitRows(t.rows, selected.value, projection, k);
    }
  }
}
