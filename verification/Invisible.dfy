/** Indexes are invisible: two catalogs that differ only in their indexes answer every run of statements alike. */
module Invisible {
  import opened Basics
  import opened Values
  import opened Ast
  import opened Tables
  import opened TableFacts
  import opened Selects
  import opened AccessPaths
  import opened Catalogs
  import opened Engine

  /** The same data, whatever the indexes. */
  predicate Twin(t: Table, u: Table) {
    t.name == u.name && t.columns == u.columns && t.rows == u.rows && t.nextRowId == u.nextRowId &&
    t.primaryKey == u.primaryKey
  }

  ghost predicate Twins(c: Catalog, d: Catalog) {
    c.Keys == d.Keys && forall n :: n in c ==> Twin(c[n], d[n])
  }

  predicate PlainValues(values: seq<Value>) { forall i :: 0 <= i < |values| ==> NoNegativeZero(values[i]) }

  predicate PlainAssignments(assignments: seq<(string, Value)>) {
    forall i :: 0 <= i < |assignments| ==> NoNegativeZero(assignments[i].1)
  }

  /** A statement that mentions no negative zero. */
  predicate PlainStatement(s: Statement) {
    match s
    case Insert(_, _, values) => PlainValues(values)
    case Select(_, _, filter, _, _) => FilterPlain(filter)
    case Update(_, assignments, filter) => PlainAssignments(assignments) && FilterPlain(filter)
    case Delete(_, filter) => FilterPlain(filter)
    case _ => true
  }

  ghost predicate PlainCatalog(c: Catalog) { forall n :: n in c ==> NoNegativeZeros(c[n].rows) }

  predicate PlainRow(row: Row) { forall n :: n in row ==> NoNegativeZero(row[n]) }

  // ---------------------------------------------------------------- negative zeros stay out

  lemma {:induction false} FilledPlain(columns: seq<Column>, targets: seq<string>, values: seq<Value>, env: Env,
                                       row: Row)
    requires |targets| == |values| && PlainValues(values) && PlainRow(row)
    requires FillRow(columns, targets, values, env, row).Ok?
    ensures PlainRow(FillRow(columns, targets, values, env, row).value)
  {
    hide FindColumn;
    if targets != [] {
      var c := FindColumn(columns, targets[0]).value;
      ValidatedPlain(c, values[0], env);
      hide ValidateValue, NoNegativeZero;
      var v := ValidateValue(c, values[0], env).value;
      FilledPlain(columns, targets[1..], values[1..], env, row[c.name := v]);
    }
  }

  lemma ValidatedPlain(c: Column, v: Value, env: Env)
    requires NoNegativeZero(v) && ValidateValue(c, v, env).Ok?
    ensures NoNegativeZero(ValidateValue(c, v, env).value)
  {}

  lemma {:induction false} NormalizedPlain(columns: seq<Column>, assignments: seq<(string, Value)>, env: Env)
    requires PlainAssignments(assignments) && NormalizeAssignments(columns, assignments, env).Ok?
    ensures PlainAssignments(NormalizeAssignments(columns, assignments, env).value)
  {
    hide FindColumn, ValidateValue, NoNegativeZero;
    if assignments != [] {
      ValidatedPlain(FindColumn(columns, assignments[0].0).value, assignments[0].1, env);
      NormalizedPlain(columns, assignments[1..], env);
    }
  }

  lemma {:induction false} AssignedPlain(row: Row, norm: seq<(string, Value)>)
    requires PlainRow(row) && PlainAssignments(norm)
    ensures PlainRow(Assign(row, norm))
    decreases norm
  {
    hide NoNegativeZero;
    if norm != [] { AssignedPlain(row[norm[0].0 := norm[0].1], norm[1..]); }
  }

  lemma AssignAllPlain(rows: map<nat, Row>, ids: seq<nat>, norm: seq<(string, Value)>)
    requires NoNegativeZeros(rows) && PlainAssignments(norm)
    ensures NoNegativeZeros(AssignAll(rows, ids, norm))
  {
    hide NoNegativeZero, Assign;
    forall id | id in rows ensures PlainRow(AssignAll(rows, ids, norm)[id]) {
      assert PlainRow(rows[id]);
      AssignedPlain(rows[id], norm);
    }
  }

  // ---------------------------------------------------------------- one lookup

  /** The words of a query tell the rows of a table apart alike under two tokenisers. */
  predicate SameWords(rows: map<nat, Row>, column: string, tokens: seq<string>,
                      a: string -> seq<string>, b: string -> seq<string>)
  {
    tokens == [] ||
    forall id :: id in rows ==> (HasWords(rows[id], column, tokens, a) <==> HasWords(rows[id], column, tokens, b))
  }

  /** Two tables with the same data answer a normalised filter alike: both or neither take an index for an equality,
      or the column spells the number one way; and the tokenisers that decide a MATCH tell the rows apart alike. */
  predicate SameAnswer(t: Table, u: Table, filter: Option<Filter>, env: Env) {
    match filter
    case Some(Equals(column, v)) => (Indexed(t, column) <==> Indexed(u, column)) || OneSpelling(t.rows, column, v)
    case Some(FullText(column, query)) =>
      SameWords(t.rows, column, env.tokenize(env.tokenizer, query),
                SearchedBy(t, column, env), SearchedBy(u, column, env))
    case _ => true
  }

  lemma SameWordsIff(rows: map<nat, Row>, column: string, tokens: seq<string>,
                     a: string -> seq<string>, b: string -> seq<string>)
    requires tokens != []
    ensures Indexwise(rows, column, tokens, a) == Indexwise(rows, column, tokens, b) <==>
            SameWords(rows, column, tokens, a, b)
  {
    hide HasWords;
    var x, y := Indexwise(rows, column, tokens, a), Indexwise(rows, column, tokens, b);
    forall id | id in rows
      ensures (id in x <==> HasWords(rows[id], column, tokens, a)) &&
              (id in y <==> HasWords(rows[id], column, tokens, b))
    {}
  }

  lemma SameAnswerIff(t: Table, u: Table, filter: Option<Filter>, env: Env)
    requires t.rows == u.rows && (filter.Some? && filter.value.Equals? ==> Finite(filter.value.value))
    ensures Found(t, filter, env) == Found(u, filter, env) <==> SameAnswer(t, u, filter, env)
  {
    hide Indexed, OneSpelling, SameWords, SearchedBy, ExactIds, EqualIds, Indexwise, Hits;
    match filter
    case Some(Equals(column, v)) => SpellingSets(t.rows, column, v);
    case Some(FullText(column, query)) =>
      var tokens := env.tokenize(env.tokenizer, query);
      if tokens == [] {
        assert SameWords(t.rows, column, tokens, SearchedBy(t, column, env), SearchedBy(u, column, env)) by {
          NoWordsSame(t.rows, column, tokens, SearchedBy(t, column, env), SearchedBy(u, column, env));
        }
      } else {
        SameWordsIff(t.rows, column, tokens, SearchedBy(t, column, env), SearchedBy(u, column, env));
      }
    case _ =>
  }

  lemma NoWordsSame(rows: map<nat, Row>, column: string, tokens: seq<string>,
                    a: string -> seq<string>, b: string -> seq<string>)
    requires tokens == []
    ensures SameWords(rows, column, tokens, a, b)
  {}

  /** Whether two tables with the same data answer a filter alike, exactly. */
  lemma LookupAlikeIff(t: Table, u: Table, filter: Option<Filter>, env: Env)
    requires Twin(t, u) && Sound(t, env) && Sound(u, env)
    ensures Matching(t, filter, env) == Matching(u, filter, env) <==>
            var f := NormalizeFilter(t.columns, filter, env); f.Err? || SameAnswer(t, u, f.value, env)
  {
    hide Sound, NormalizeFilter, Matching, Found, SameAnswer, Ascending;
    MatchingFinds(t, filter, env);
    MatchingFinds(u, filter, env);
    var f := NormalizeFilter(t.columns, filter, env);
    if f.Ok? {
      NormalizedKind(t.columns, filter, env);
      SameAnswerIff(t, u, f.value, env);
      if Ascending(Found(t, f.value, env)) == Ascending(Found(u, f.value, env)) {
        AscendingInjective(Found(t, f.value, env), Found(u, f.value, env));
      }
    }
  }

  predicate HasFilter(s: Statement) { s.Select? || s.Update? || s.Delete? }

  /** The statement's lookup, if it has one, is answered alike by two tables. */
  predicate SameLookup(t: Table, u: Table, s: Statement, env: Env) {
    HasFilter(s) ==> var f := NormalizeFilter(t.columns, s.filter, env); f.Err? || SameAnswer(t, u, f.value, env)
  }

  lemma MatchingTwin(t: Table, u: Table, s: Statement, env: Env)
    requires HasFilter(s) && Twin(t, u) && Sound(t, env) && Sound(u, env) && SameLookup(t, u, s, env)
    ensures Matching(t, s.filter, env) == Matching(u, s.filter, env)
  {
    hide Twin, Sound, Matching, NormalizeFilter, SameAnswer;
    LookupAlikeIff(t, u, s.filter, env);
  }

  // ---------------------------------------------------------------- one table

  lemma SelectTwin(t: Table, u: Table, s: Statement, env: Env)
    requires s.Select? && Twin(t, u) && Sound(t, env) && Sound(u, env) && SameLookup(t, u, s, env)
    ensures SelectRows(t, s.projection, s.filter, s.order, s.limit, env) ==
            SelectRows(u, s.projection, s.filter, s.order, s.limit, env)
  {
    hide Sound, SameLookup, Matching, ProjectionOk, ProjectAll, Limited, ScorePass, SortScored, FindColumn;
    MatchingTwin(t, u, s, env);
  }

  /** Tables with the same data have the same primary map and can be rebuilt from the same rows. */
  lemma TwinBuildable(t: Table, u: Table, rows: map<nat, Row>, next: nat)
    requires Twin(t, u) && Shape(t.(rows := rows, nextRowId := next))
    ensures Buildable(t.(rows := rows, nextRowId := next)) <==> Buildable(u.(rows := rows, nextRowId := next))
  {
    hide PrimaryOk, ColumnIndexable, RowFits;
    ShapeIndexable(t.(rows := rows, nextRowId := next));
  }

  lemma TwinBuilt(t: Table, u: Table, rows: map<nat, Row>, next: nat, tok: string -> seq<string>)
    requires Twin(t, u) && Shape(t.(rows := rows, nextRowId := next))
    ensures var (a, b) := (Rebuild(t.(rows := rows, nextRowId := next), tok),
                           Rebuild(u.(rows := rows, nextRowId := next), tok));
            && (a.Ok? <==> b.Ok?) && (a.Err? ==> a == b)
            && (a.Ok? ==> Twin(a.value, b.value) && a.value.rows == rows)
  {
    TwinBuildable(t, u, rows, next);
    hide Buildable, BuildPrimary, BuildIndexes, BuildFulltext, Shape;
  }

  lemma TwinPrimary(t: Table, u: Table)
    requires Twin(t, u) && Core(t) && Core(u)
    ensures t.primary == u.primary
  {
    hide Shape, PrimaryOk, BuildPrimary, BuildIndexes;
  }

  lemma InsertTwin(t: Table, u: Table, s: Statement, env: Env)
    requires s.Insert? && Twin(t, u) && Sound(t, env) && Sound(u, env)
    ensures var (a, b) := (ExecTable(t, s, env), ExecTable(u, s, env)); Twin(a.0, b.0) && a.1 == b.1
  {
    hide Sound, Rebuild, PrimaryFree, Core, FillRow, Shape;
    SoundIsCore(t, env);
    SoundIsCore(u, env);
    TwinPrimary(t, u);
    var made := NewRow(t, s.targets, s.values, env);
    assert made == NewRow(u, s.targets, s.values, env);
    if made.Ok? {
      TwinFree(t, u, made.value);
      if PrimaryFree(t, made.value) {
        CoreShape(t);
        NewRowFits(t, s.targets, s.values, env);
        InsertRebuilds(t, made.value);
        TwinBuilt(t, u, t.rows[t.nextRowId := made.value], t.nextRowId + 1, Tok(env, env.tokenizer));
      }
    }
  }

  lemma TwinFree(t: Table, u: Table, row: Row)
    requires t.primaryKey == u.primaryKey && t.primary == u.primary
    ensures PrimaryFree(t, row) == PrimaryFree(u, row)
  {}

  lemma UpdateTwin(t: Table, u: Table, s: Statement, env: Env)
    requires s.Update? && Twin(t, u) && Sound(t, env) && Sound(u, env) && SameLookup(t, u, s, env)
    ensures var (a, b) := (ExecTable(t, s, env), ExecTable(u, s, env)); Twin(a.0, b.0) && a.1 == b.1
  {
    hide Sound, Core, Rebuild, NormalizeAssignments, Matching, Shape, AssignAll, SameLookup;
    MatchingTwin(t, u, s, env);
    SoundIsCore(t, env);
    CoreShape(t);
    var tok := Tok(env, env.tokenizer);
    var m, norm := Matching(t, s.filter, env), NormalizeAssignments(t.columns, s.assignments, env);
    if m.Ok? && norm.Ok? {
      var rows := AssignAll(t.rows, m.value, norm.value);
      NormalizedFit(t.columns, s.assignments, env);
      AssignAllShape(t, m.value, norm.value);
      assert t.(rows := rows) == t.(rows := rows, nextRowId := t.nextRowId);
      assert u.(rows := rows) == u.(rows := rows, nextRowId := t.nextRowId);
      assert t == t.(rows := t.rows, nextRowId := t.nextRowId) && u == u.(rows := t.rows, nextRowId := t.nextRowId);
      TwinBuilt(t, u, rows, t.nextRowId, tok);
      TwinBuilt(t, u, t.rows, t.nextRowId, tok);
    }
  }

  lemma DeleteTwin(t: Table, u: Table, s: Statement, env: Env)
    requires s.Delete? && Twin(t, u) && Sound(t, env) && Sound(u, env) && SameLookup(t, u, s, env)
    ensures var (a, b) := (ExecTable(t, s, env), ExecTable(u, s, env)); Twin(a.0, b.0) && a.1 == b.1
  {
    hide Sound, Core, Rebuild, Matching, SameLookup, WithoutRows, Shape;
    MatchingTwin(t, u, s, env);
    SoundIsCore(t, env);
    var m := Matching(t, s.filter, env);
    if m.Ok? {
      var rows := WithoutRows(t.rows, m.value);
      DeleteRebuilds(t, m.value);
      assert t.(rows := rows) == t.(rows := rows, nextRowId := t.nextRowId);
      assert u.(rows := rows) == u.(rows := rows, nextRowId := t.nextRowId);
      TwinBuilt(t, u, rows, t.nextRowId, Tok(env, env.tokenizer));
    }
  }

  lemma ExecTwin(t: Table, u: Table, s: Statement, env: Env)
    requires OnTable(s) && !s.CreateIndex? && Twin(t, u) && Sound(t, env) && Sound(u, env) && SameLookup(t, u, s, env)
    ensures var (a, b) := (ExecTable(t, s, env), ExecTable(u, s, env)); Twin(a.0, b.0) && a.1 == b.1
  {
    hide Sound, SameLookup, InsertRow, UpdateRows, DeleteRows, SelectRows;
    match s
    case Insert(_, _, _) => InsertTwin(t, u, s, env);
    case Select(_, _, _, _, _) => SelectTwin(t, u, s, env);
    case Update(_, _, _) => UpdateTwin(t, u, s, env);
    case Delete(_, _) => DeleteTwin(t, u, s, env);
  }

  // ---------------------------------------------------------------- catalogs and runs

  ghost predicate Alike(c: Catalog, d: Catalog, env: Env) {
    Twins(c, d) && CatalogSound(c, env) && CatalogSound(d, env)
  }

  /** The statement's lookup is answered alike by two catalogs. */
  predicate SameLookupIn(c: Catalog, d: Catalog, s: Statement, env: Env) {
    OnTable(s) && s.table in c && s.table in d ==> SameLookup(c[s.table], d[s.table], s, env)
  }

  lemma TwinsUpdated(c: Catalog, d: Catalog, n: string, t: Table, u: Table)
    requires Twins(c, d) && Twin(t, u)
    ensures Twins(c[n := t], d[n := u])
  {
    hide Twin;
  }

  lemma AlikeAt(c: Catalog, d: Catalog, n: string, env: Env)
    requires Alike(c, d, env)
    ensures n in c <==> n in d
    ensures n in c ==> Twin(c[n], d[n]) && Sound(c[n], env) && Sound(d[n], env)
  {
    hide Twin, Sound;
  }

  /** One statement on catalogs that differ only in indexes: the same outcome, and the same data after it. */
  lemma ExecAlike(c: Catalog, d: Catalog, s: Statement, env: Env)
    requires Alike(c, d, env) && !s.CreateIndex? && SameLookupIn(c, d, s, env)
    ensures Exec(c, s, env).1 == Exec(d, s, env).1 && Alike(Exec(c, s, env).0, Exec(d, s, env).0, env)
  {
    hide ExecTable, Sound, NewTable, Twins, Twin, CatalogSound, SameLookup;
    ExecSound(c, s, env);
    ExecSound(d, s, env);
    if s.CreateTable? {
      AlikeAt(c, d, s.name, env);
      var t := NewTable(s.name, s.columns);
      if t.Ok? {
        TwinSelf(t.value);
        TwinsUpdated(c, d, s.name, t.value, t.value);
      }
    } else if OnTable(s) {
      AlikeAt(c, d, s.table, env);
      if s.table in c {
        ExecTwin(c[s.table], d[s.table], s, env);
        TwinsUpdated(c, d, s.table, ExecTable(c[s.table], s, env).0, ExecTable(d[s.table], s, env).0);
      }
    }
  }

  lemma TwinSelf(t: Table)
    ensures Twin(t, t)
  {}

  /** The outcomes of a run, and the catalog it ends with. */
  function Answers(c: Catalog, run: seq<Statement>, env: Env): (seq<Outcome>, Catalog)
    decreases run
  {
    if run == [] then ([], c) else
      var (after, r) := Exec(c, run[0], env);
      var (rest, end) := Answers(after, run[1..], env);
      ([r] + rest, end)
  }

  /** Every lookup of a run is answered alike by two catalogs that both go through it. */
  predicate SameLookups(c: Catalog, d: Catalog, run: seq<Statement>, env: Env)
    decreases run
  {
    run == [] ||
    (SameLookupIn(c, d, run[0], env) && SameLookups(Exec(c, run[0], env).0, Exec(d, run[0], env).0, run[1..], env))
  }

  /** Two sound catalogs with the same data answer alike every run whose lookups they answer alike. */
  lemma {:induction false} RunAlike(c: Catalog, d: Catalog, run: seq<Statement>, env: Env)
    requires Alike(c, d, env) && (forall i :: 0 <= i < |run| ==> !run[i].CreateIndex?) && SameLookups(c, d, run, env)
    ensures Answers(c, run, env).0 == Answers(d, run, env).0
    ensures Alike(Answers(c, run, env).1, Answers(d, run, env).1, env)
    decreases run
  {
    hide Exec, Alike, SameLookupIn;
    if run != [] {
      ExecAlike(c, d, run[0], env);
      RunAlike(Exec(c, run[0], env).0, Exec(d, run[0], env).0, run[1..], env);
    }
  }

  // ---------------------------------------------------------------- plain runs

  predicate HasMatch(s: Statement) { HasFilter(s) && IsMatch(s.filter) }

  lemma PlainLookup(t: Table, u: Table, s: Statement, env: Env)
    requires Twin(t, u) && Core(t) && Core(u) && NoNegativeZeros(t.rows) && PlainStatement(s)
    requires HasMatch(s) ==> t.fulltext == BuildFulltext(t.rows, t.fulltext, Tok(env, env.tokenizer))
    requires HasMatch(s) ==> u.fulltext == BuildFulltext(u.rows, u.fulltext, Tok(env, env.tokenizer))
    ensures SameLookup(t, u, s, env)
  {
    hide Core, NormalizeFilter, NoNegativeZeros, NoNegativeZero, OneSpelling, Indexed, SearchedBy, SameWords,
         BuildFulltext, Finite;
    if HasFilter(s) {
      var f := NormalizeFilter(t.columns, s.filter, env);
      if f.Ok? {
        NormalizedKind(t.columns, s.filter, env);
        match f.value
        case Some(Equals(column, v)) => PlainRowsSpellOnce(t.rows, column, v);
        case Some(FullText(column, query)) => ConfiguredWords(t, u, column, env.tokenize(env.tokenizer, query), env);
        case _ =>
      }
    }
  }

  /** Maps of the configured tokeniser decide like the scan, even where the simple one would fill them the same way. */
  lemma ConfiguredWords(t: Table, u: Table, column: string, tokens: seq<string>, env: Env)
    requires t.rows == u.rows
    requires t.fulltext == BuildFulltext(t.rows, t.fulltext, Tok(env, env.tokenizer))
    requires u.fulltext == BuildFulltext(u.rows, u.fulltext, Tok(env, env.tokenizer))
    ensures SameWords(t.rows, column, tokens, SearchedBy(t, column, env), SearchedBy(u, column, env))
  {
    hide HasWords, SearchedBy, BuildFulltext;
    forall id | id in t.rows
      ensures HasWords(t.rows[id], column, tokens, SearchedBy(t, column, env)) <==>
              HasWords(t.rows[id], column, tokens, Tok(env, env.tokenizer))
      ensures HasWords(u.rows[id], column, tokens, SearchedBy(u, column, env)) <==>
              HasWords(u.rows[id], column, tokens, Tok(env, env.tokenizer))
    {
      ConfiguredRow(t, column, tokens, env, id);
      ConfiguredRow(u, column, tokens, env, id);
    }
  }

  lemma ConfiguredRow(t: Table, column: string, tokens: seq<string>, env: Env, id: nat)
    requires id in t.rows && t.fulltext == BuildFulltext(t.rows, t.fulltext, Tok(env, env.tokenizer))
    ensures HasWords(t.rows[id], column, tokens, SearchedBy(t, column, env)) <==>
            HasWords(t.rows[id], column, tokens, Tok(env, env.tokenizer))
  {
    hide Words, BuildWords;
    var n := IndexOn(t.fulltext, column);
    if n.Some? && t.fulltext == BuildFulltext(t.rows, t.fulltext, Tok(env, Simple)) {
      var entries := t.fulltext[n.value].entries;
      assert entries == BuildWords(t.rows, column, Tok(env, Simple)) ==
             BuildWords(t.rows, column, Tok(env, env.tokenizer));
      forall i | 0 <= i < |tokens|
        ensures tokens[i] in Words(t.rows[id], column, Tok(env, Simple)) <==>
                tokens[i] in Words(t.rows[id], column, Tok(env, env.tokenizer))
      {
        WordPosting(t.rows, column, Tok(env, Simple), tokens[i], id);
        WordPosting(t.rows, column, Tok(env, env.tokenizer), tokens[i], id);
      }
    }
  }

  lemma InsertPlain(t: Table, s: Statement, env: Env)
    requires s.Insert? && NoNegativeZeros(t.rows) && PlainStatement(s)
    ensures NoNegativeZeros(ExecTable(t, s, env).0.rows)
  {
    hide FillRow, NoNegativeZeros, PlainRow, PrimaryFree, Buildable, BuildPrimary, BuildIndexes, BuildFulltext;
    NullRowPlain(t.columns);
    var made := NewRow(t, s.targets, s.values, env);
    if made.Ok? {
      FilledPlain(t.columns, Targets(t, s.targets), s.values, env, NullRow(t.columns));
      AddedPlain(t.rows, t.nextRowId, made.value);
    }
  }

  lemma NullRowPlain(columns: seq<Column>)
    ensures PlainRow(NullRow(columns))
  {}

  lemma AddedPlain(rows: map<nat, Row>, id: nat, row: Row)
    requires NoNegativeZeros(rows) && PlainRow(row)
    ensures NoNegativeZeros(rows[id := row])
  {
    hide NoNegativeZero;
  }

  lemma UpdatePlain(t: Table, s: Statement, env: Env)
    requires s.Update? && NoNegativeZeros(t.rows) && PlainStatement(s)
    ensures NoNegativeZeros(ExecTable(t, s, env).0.rows)
  {
    hide NoNegativeZeros, Matching, NormalizeAssignments, PlainAssignments, AssignAll, Buildable, BuildPrimary,
         BuildIndexes, BuildFulltext;
    var m, norm := Matching(t, s.filter, env), NormalizeAssignments(t.columns, s.assignments, env);
    if m.Ok? && norm.Ok? {
      NormalizedPlain(t.columns, s.assignments, env);
      AssignAllPlain(t.rows, m.value, norm.value);
    }
  }

  lemma DeletePlain(t: Table, s: Statement, env: Env)
    requires s.Delete? && NoNegativeZeros(t.rows)
    ensures NoNegativeZeros(ExecTable(t, s, env).0.rows)
  {
    hide NoNegativeZero, Matching, Buildable, BuildPrimary, BuildIndexes, BuildFulltext;
  }

  /** Statements without a negative zero bring none in. */
  lemma ExecPlain(c: Catalog, s: Statement, env: Env)
    requires PlainCatalog(c) && PlainStatement(s) && !s.CreateIndex?
    ensures PlainCatalog(Exec(c, s, env).0)
  {
    hide NoNegativeZeros, NewTable, ExecTable, PlainStatement;
    if s.CreateTable? {
      if NewTable(s.name, s.columns).Ok? { NewTablePlain(s.name, s.columns); }
    } else if OnTable(s) && s.table in c {
      match s
      case Insert(_, _, _) => InsertPlain(c[s.table], s, env);
      case Update(_, _, _) => UpdatePlain(c[s.table], s, env);
      case Delete(_, _) => DeletePlain(c[s.table], s, env);
      case Select(_, _, _, _, _) => SelectPlain(c[s.table], s, env);
    }
  }

  lemma SelectPlain(t: Table, s: Statement, env: Env)
    requires s.Select?
    ensures ExecTable(t, s, env).0 == t
  {
    hide SelectRows;
  }

  lemma NewTablePlain(name: string, columns: seq<Column>)
    requires NewTable(name, columns).Ok?
    ensures NoNegativeZeros(NewTable(name, columns).value.rows)
  {}

  lemma ConfiguredMaps(t: Table, env: Env)
    requires WellFormed(t, Tok(env, env.tokenizer))
    ensures t.fulltext == BuildFulltext(t.rows, t.fulltext, Tok(env, env.tokenizer))
  {
    hide Shape, Buildable, BuildPrimary, BuildIndexes, BuildFulltext;
  }

  /** No MATCH, or full-text maps of the configured tokeniser on both sides. */
  ghost predicate MatchesServed(c: Catalog, d: Catalog, run: seq<Statement>, env: Env) {
    (forall i :: 0 <= i < |run| ==> !HasMatch(run[i])) || (CatalogWellFormed(c, env) && CatalogWellFormed(d, env))
  }

  lemma PlainLookupIn(c: Catalog, d: Catalog, s: Statement, env: Env)
    requires Alike(c, d, env) && PlainCatalog(c) && PlainStatement(s)
    requires HasMatch(s) ==> CatalogWellFormed(c, env) && CatalogWellFormed(d, env)
    ensures SameLookupIn(c, d, s, env)
  {
    hide Twin, Sound, WellFormed, NoNegativeZeros, PlainStatement, SameLookup, HasMatch, BuildFulltext, Core;
    if OnTable(s) && s.table in c && s.table in d {
      var t, u := c[s.table], d[s.table];
      SoundIsCore(t, env);
      SoundIsCore(u, env);
      if HasMatch(s) {
        ConfiguredMaps(t, env);
        ConfiguredMaps(u, env);
      }
      PlainLookup(t, u, s, env);
    }
  }

  lemma {:induction false} PlainLookups(c: Catalog, d: Catalog, run: seq<Statement>, env: Env)
    requires Alike(c, d, env) && PlainCatalog(c) && MatchesServed(c, d, run, env)
    requires forall i :: 0 <= i < |run| ==> !run[i].CreateIndex? && PlainStatement(run[i])
    ensures SameLookups(c, d, run, env)
    decreases run
  {
    hide Exec, Alike, PlainCatalog, PlainStatement, CatalogWellFormed, HasMatch, SameLookupIn;
    if run != [] {
      PlainLookupIn(c, d, run[0], env);
      ExecAlike(c, d, run[0], env);
      ExecPlain(c, run[0], env);
      if CatalogWellFormed(c, env) && CatalogWellFormed(d, env) {
        ExecWellFormed(c, run[0], env);
        ExecWellFormed(d, run[0], env);
      }
      PlainLookups(Exec(c, run[0], env).0, Exec(d, run[0], env).0, run[1..], env);
    }
  }

  // ---------------------------------------------------------------- creating an index

  lemma AddIndexTwin(t: Table, s: Statement, env: Env)
    requires s.CreateIndex?
    ensures Twin(t, ExecTable(t, s, env).0)
  {
    hide Buildable, BuildPrimary, BuildIndexes, BuildFulltext, FindColumn, Shape;
  }

  /** What CREATE INDEX, secondary or full-text, changes about one lookup, exactly. */
  lemma IndexChangesLookupIff(t: Table, create: Statement, filter: Option<Filter>, env: Env)
    requires create.CreateIndex? && Sound(t, env)
    ensures var u := ExecTable(t, create, env).0;
            Matching(u, filter, env) == Matching(t, filter, env) <==>
            var f := NormalizeFilter(t.columns, filter, env); f.Err? || SameAnswer(t, u, f.value, env)
  {
    hide Sound, ExecTable, Matching, NormalizeFilter, SameAnswer;
    AddIndexTwin(t, create, env);
    ExecTableSound(t, create, env);
    LookupAlikeIff(t, ExecTable(t, create, env).0, filter, env);
  }

  lemma CreateAlike(c: Catalog, create: Statement, env: Env)
    requires CatalogSound(c, env) && create.CreateIndex?
    ensures Alike(c, Exec(c, create, env).0, env)
  {
    hide Sound, ExecTable;
    ExecSound(c, create, env);
    if create.table in c { AddIndexTwin(c[create.table], create, env); }
  }

  /** Creating an index is invisible to every later run of SELECT, INSERT, UPDATE, DELETE and CREATE TABLE whose
      lookups it leaves alone: the same rows, counts and errors, and the same data, as without the index. */
  lemma IndexIsInvisible(c: Catalog, create: Statement, run: seq<Statement>, env: Env)
    requires CatalogSound(c, env) && create.CreateIndex?
    requires forall i :: 0 <= i < |run| ==> !run[i].CreateIndex?
    requires SameLookups(c, Exec(c, create, env).0, run, env)
    ensures var indexed := Exec(c, create, env).0;
            && Answers(indexed, run, env).0 == Answers(c, run, env).0
            && Twins(Answers(c, run, env).1, Answers(indexed, run, env).1)
  {
    hide CatalogSound, Exec, SameLookups, Answers, Twins;
    CreateAlike(c, create, env);
    RunAlike(c, Exec(c, create, env).0, run, env);
  }

  /** It leaves them alone when catalog and run have no negative zero and, for any MATCH in the run, the simple
      tokeniser is configured, or the maps are those of the configured one and the new index is a full-text one. */
  lemma IndexIsInvisibleToPlainRuns(c: Catalog, create: Statement, run: seq<Statement>, env: Env)
    requires CatalogSound(c, env) && PlainCatalog(c) && create.CreateIndex?
    requires forall i :: 0 <= i < |run| ==> !run[i].CreateIndex? && PlainStatement(run[i])
    requires || (forall i :: 0 <= i < |run| ==> !HasMatch(run[i]))
             || env.tokenizer == Simple
             || (CatalogWellFormed(c, env) && create.fulltext)
    ensures var indexed := Exec(c, create, env).0;
            && Answers(indexed, run, env).0 == Answers(c, run, env).0
            && Twins(Answers(c, run, env).1, Answers(indexed, run, env).1)
  {
    hide CatalogSound, CatalogWellFormed, Exec, SameLookups, Answers, Twins, PlainCatalog, PlainStatement, HasMatch;
    CreateAlike(c, create, env);
    if env.tokenizer == Simple { SimpleCatalog(c, env); }
    if CatalogWellFormed(c, env) && (env.tokenizer == Simple || create.fulltext) { ExecWellFormed(c, create, env); }
    PlainLookups(c, Exec(c, create, env).0, run, env);
    IndexIsInvisible(c, create, run, env);
  }

  lemma SimpleCatalog(c: Catalog, env: Env)
    requires CatalogSound(c, env) && env.tokenizer == Simple
    ensures CatalogWellFormed(c, env)
  {
    hide WellFormed;
  }
}
