/** What a WHERE clause means to the caller, in terms of the filter as it was sent: names in any spelling, values before
    conversion. */
module Filters {
  import opened Basics
  import opened Values
  import opened Ast
  import opened Tables
  import opened TableFacts
  import opened AccessPaths
  import opened TableMeaning
  import opened Orders
  import opened Engine

  // ---------------------------------------------------------------- values

  /** A column takes the values that fit it, vectors of the configured dimension only, and integers for floats. */
  predicate Takes(ty: ColumnType, v: Value, env: Env) {
    || (ty.FloatType? && v.Integer?)
    || (Fits(ty, v) && (v.Vector? && env.dimensions.Some? ==> |v.v| == env.dimensions.value))
  }

  /** What such a value is stored as, and compared as. */
  function Stored(ty: ColumnType, v: Value, env: Env): Value {
    if ty.FloatType? && v.Integer? then Float(env.toFloat(v.i)) else v
  }

  lemma ValidatedStores(c: Column, v: Value, env: Env)
    ensures ValidateValue(c, v, env) == if Takes(c.ty, v, env) then Ok(Stored(c.ty, v, env)) else Err(Execution)
  {
    ValidatedIff(c, v, env);
  }

  // ---------------------------------------------------------------- filters

  /** A filter is accepted when it names a column of the right type, and an equality a value the column takes. */
  predicate Accepts(t: Table, filter: Option<Filter>, env: Env) {
    match filter
    case None => true
    case Some(Equals(name, v)) =>
      exists c :: c in t.columns && c.name == NormalizeIdentifier(name) && Takes(c.ty, v, env)
    case Some(FullText(name, _)) =>
      exists c :: c in t.columns && c.name == NormalizeIdentifier(name) && c.ty.TextType?
    case Some(GeoWithin(name, _, _, _)) =>
      exists c :: c in t.columns && c.name == NormalizeIdentifier(name) && c.ty.PointType?
  }

  /** The rows an accepted filter selects: those whose column holds the stored form of the value (bit for bit if an
      index answers, as a number if a scan does); those whose text has every word of the query, if it has any; those
      whose point lies within the given distance of the given point. */
  predicate Selects(t: Table, row: Row, filter: Option<Filter>, env: Env) {
    match filter
    case None => true
    case Some(Equals(name, v)) =>
      exists c :: c in t.columns && c.name == NormalizeIdentifier(name) && c.name in row &&
        if Indexed(t, c.name) then row[c.name] == Stored(c.ty, v, env)
        else SameNumber(row[c.name], Stored(c.ty, v, env))
    case Some(FullText(name, query)) =>
      var (n, words) := (NormalizeIdentifier(name), env.tokenize(env.tokenizer, query));
      && words != [] && n in row && row[n].Text?
      && forall w :: w in words ==> w in SearchedBy(t, n, env)(row[n].s)
    case Some(GeoWithin(name, point, meters, inclusive)) =>
      var n := NormalizeIdentifier(name);
      && n in row && row[n].Place?
      && var distance := env.geoDistance(row[n].p, point);
         && !NaN64(distance) && !NaN64(meters)
         && if inclusive then Number(distance) <= Number(meters) else Number(distance) < Number(meters)
  }

  function Wanted(t: Table, filter: Option<Filter>, env: Env): set<nat> {
    set id | id in t.rows && Selects(t, t.rows[id], filter, env)
  }

  lemma OnlyColumn(columns: seq<Column>, c: Column)
    requires DistinctNames(columns) && c in columns
    ensures ColumnNamed(columns, c.name) == Some(c)
  {
    var r := ColumnNamed(columns, c.name);
    var i :| 0 <= i < |columns| && columns[i] == c;
    var j :| 0 <= j < |columns| && columns[j] == r.value;
  }

  lemma NoColumn(columns: seq<Column>, name: string)
    requires ColumnNamed(columns, name).None?
    ensures forall c :: c in columns ==> c.name != name
  {
    forall c | c in columns ensures c.name != name {
      var i :| 0 <= i < |columns| && columns[i] == c;
    }
  }

  /** A name stands for the one column it spells. */
  lemma FoundColumn(columns: seq<Column>, name: string)
    requires DistinctNames(columns)
    ensures var r := FindColumn(columns, name);
            && (r.Some? ==> r.value in columns && r.value.name == NormalizeIdentifier(name))
            && forall c :: c in columns && c.name == NormalizeIdentifier(name) ==> r == Some(c)
  {
    hide NormalizeIdentifier;
    if FindColumn(columns, name).None? { NoColumn(columns, NormalizeIdentifier(name)); }
    forall c | c in columns && c.name == NormalizeIdentifier(name) ensures FindColumn(columns, name) == Some(c) {
      OnlyColumn(columns, c);
    }
  }

  lemma SelectsTokens(row: Row, n: string, words: seq<string>, tok: string -> seq<string>)
    ensures words != [] && HasWords(row, n, words, tok) <==>
            words != [] && n in row && row[n].Text? && forall w :: w in words ==> w in tok(row[n].s)
  {
    if words != [] && HasWords(row, n, words, tok) {
      assert words[0] in Words(row, n, tok);
      forall w | w in words ensures w in Words(row, n, tok) { var i :| 0 <= i < |words| && words[i] == w; }
    }
  }

  /** One row is found exactly when the filter, as it was sent, selects it. */
  lemma FoundIsSelected(t: Table, filter: Option<Filter>, env: Env, id: nat)
    requires DistinctNames(t.columns) && NormalizeFilter(t.columns, filter, env).Ok?
    ensures id in Found(t, NormalizeFilter(t.columns, filter, env).value, env) <==> id in Wanted(t, filter, env)
  {
    hide NormalizeIdentifier, Indexed, SearchedBy, HasWords, Words, SameNumber, ValidateValue, Number, Less64, Same64;
    match filter
    case None =>
    case Some(Equals(name, v)) =>
      FoundColumn(t.columns, name);
      ValidatedStores(FindColumn(t.columns, name).value, v, env);
    case Some(FullText(name, query)) =>
      FoundColumn(t.columns, name);
      var n := NormalizeIdentifier(name);
      if id in t.rows { SelectsTokens(t.rows[id], n, env.tokenize(env.tokenizer, query), SearchedBy(t, n, env)); }
    case Some(GeoWithin(name, point, meters, _)) =>
      FoundColumn(t.columns, name);
      var n := NormalizeIdentifier(name);
      if id in t.rows && n in t.rows[id] && t.rows[id][n].Place? {
        ComparesNumbers(env.geoDistance(t.rows[id][n].p, point), meters);
      }
  }

  lemma AcceptsIff(t: Table, filter: Option<Filter>, env: Env)
    requires DistinctNames(t.columns)
    ensures NormalizeFilter(t.columns, filter, env).Ok? <==> Accepts(t, filter, env)
  {
    hide NormalizeIdentifier, ValidateValue, Takes;
    match filter
    case None =>
    case Some(Equals(name, v)) =>
      FoundColumn(t.columns, name);
      var c := FindColumn(t.columns, name);
      if c.Some? { ValidatedStores(c.value, v, env); }
    case Some(FullText(name, _)) => FoundColumn(t.columns, name);
    case Some(GeoWithin(name, _, _, _)) => FoundColumn(t.columns, name);
  }

  lemma SoundNames(t: Table, env: Env)
    requires Sound(t, env)
    ensures DistinctNames(t.columns)
  {
    hide Buildable, Built, RowFits;
  }

  /** On every table the engine holds a filter is answered if and only if it is accepted, with exactly the rows it
      selects, by ascending id. */
  lemma FilterMeans(t: Table, filter: Option<Filter>, env: Env)
    requires Sound(t, env)
    ensures NormalizeFilter(t.columns, filter, env).Ok? <==> Accepts(t, filter, env)
    ensures Accepts(t, filter, env) ==>
              && Found(t, NormalizeFilter(t.columns, filter, env).value, env) == Wanted(t, filter, env)
              && Matching(t, filter, env) == Ok(Ascending(Wanted(t, filter, env)))
    ensures !Accepts(t, filter, env) ==> Matching(t, filter, env).Err?
  {
    hide Sound, NormalizeFilter, Accepts, Found, Wanted, Matching, Ascending;
    SoundNames(t, env);
    AcceptsIff(t, filter, env);
    MatchingFinds(t, filter, env);
    if Accepts(t, filter, env) {
      var found := Found(t, NormalizeFilter(t.columns, filter, env).value, env);
      forall id ensures id in found <==> id in Wanted(t, filter, env) { FoundIsSelected(t, filter, env, id); }
      assert found == Wanted(t, filter, env);
    }
  }

  // ---------------------------------------------------------------- what was stored is found

  /** No later target names the same column. */
  predicate LastTarget(names: seq<string>, k: nat)
    requires k < |names|
  {
    forall j :: k < j < |names| ==> NormalizeIdentifier(names[j]) != NormalizeIdentifier(names[k])
  }

  lemma {:induction false} LastAssignedIs(norm: seq<(string, Value)>, k: nat)
    requires k < |norm| && forall j :: k < j < |norm| ==> norm[j].0 != norm[k].0
    ensures LastAssigned(norm, norm[k].0) == Some(norm[k].1)
  {
    var n := |norm| - 1;
    if k < n {
      LastAssignedIs(norm[..n], k);
    }
  }

  /** After an accepted INSERT the new row holds the stored form of every value given. */
  lemma InsertedHolds(t: Table, targets: Option<seq<string>>, values: seq<Value>, k: nat, env: Env)
    requires Core(t) && InsertRow(t, targets, values, env).Ok? && k < |values|
    requires |Targets(t, targets)| == |values| ==> LastTarget(Targets(t, targets), k)
    ensures |Targets(t, targets)| == |values|
    ensures var (names, u) := (Targets(t, targets), InsertRow(t, targets, values, env).value);
            && t.nextRowId !in t.rows && t.nextRowId in u.rows
            && exists c :: c in t.columns && c.name == NormalizeIdentifier(names[k]) && Takes(c.ty, values[k], env)
                 && c.name in u.rows[t.nextRowId] && u.rows[t.nextRowId][c.name] == Stored(c.ty, values[k], env)
  {
    hide Core, InsertRow, NormalizeAssignments, Assign, NullRow, NormalizeIdentifier, ValidateValue, Stored, Takes,
         KeyIsNew, FindColumn;
    InsertMeaning(t, targets, values, env);
    var names := Targets(t, targets);
    var pairs := Pairs(names, values);
    var norm := NormalizeAssignments(t.columns, pairs, env).value;
    NormalizedAt(t.columns, pairs, env);
    CoreNames(t);
    forall j | 0 <= j < |pairs| ensures norm[j].0 == NormalizeIdentifier(names[j]) {
      assert Resolves(t.columns, pairs[j], env);
      FoundColumn(t.columns, names[j]);
    }
    assert Resolves(t.columns, pairs[k], env);
    var c := FindColumn(t.columns, names[k]).value;
    FoundColumn(t.columns, names[k]);
    ValidatedStores(c, values[k], env);
    LastAssignedIs(norm, k);
    AssignAt(NullRow(t.columns), norm, c.name);
  }

  lemma CoreNames(t: Table)
    requires Core(t)
    ensures DistinctNames(t.columns)
  {
    hide Buildable, BuildPrimary, BuildIndexes, RowFits;
  }

  lemma InsertKeeps(t: Table, targets: Option<seq<string>>, values: seq<Value>, env: Env)
    requires InsertRow(t, targets, values, env).Ok?
    ensures InsertRow(t, targets, values, env).value.columns == t.columns
  {
    hide NewRow, PrimaryFree, Buildable, BuildPrimary, BuildIndexes, BuildFulltext;
  }

  /** After an accepted INSERT of a value for a column, `WHERE column = value`, with the same spelling of the name
      and the same value before conversion, is accepted and finds the new row. */
  lemma InsertedIsFound(t: Table, targets: Option<seq<string>>, values: seq<Value>, k: nat, env: Env)
    requires Sound(t, env) && InsertRow(t, targets, values, env).Ok? && k < |values|
    requires |Targets(t, targets)| == |values| ==> LastTarget(Targets(t, targets), k)
    ensures |Targets(t, targets)| == |values|
    ensures var (name, u) := (Targets(t, targets)[k], InsertRow(t, targets, values, env).value);
            var m := Matching(u, Some(Equals(name, values[k])), env);
            m.Ok? && t.nextRowId in m.value && t.nextRowId !in t.rows
  {
    hide Sound, Core, InsertRow, Accepts, Wanted, Matching, Ascending, NormalizeIdentifier, Stored, Takes, WellFormed,
         LastTarget, Indexed, SameNumber, Targets;
    SoundIsCore(t, env);
    InsertedHolds(t, targets, values, k, env);
    var (name, u) := (Targets(t, targets)[k], InsertRow(t, targets, values, env).value);
    var filter := Some(Equals(name, values[k]));
    InsertedSound(t, targets, values, env);
    assert Sound(u, env) by { WellFormedIsSound(u, env); }
    InsertKeeps(t, targets, values, env);
    FilterMeans(u, filter, env);
    var c :| c in t.columns && c.name == NormalizeIdentifier(name) && Takes(c.ty, values[k], env)
             && c.name in u.rows[t.nextRowId] && u.rows[t.nextRowId][c.name] == Stored(c.ty, values[k], env);
    StoredFinite(c.ty, values[k], env);
    SameNumberIsEquality(Stored(c.ty, values[k], env), Stored(c.ty, values[k], env));
    EqualsSelected(u, t.nextRowId, c, name, values[k], env);
  }

  lemma EqualsSelected(u: Table, id: nat, c: Column, name: string, v: Value, env: Env)
    requires c in u.columns && c.name == NormalizeIdentifier(name) && Takes(c.ty, v, env)
    requires id in u.rows && c.name in u.rows[id] && u.rows[id][c.name] == Stored(c.ty, v, env)
    requires SameNumber(Stored(c.ty, v, env), Stored(c.ty, v, env))
    ensures Accepts(u, Some(Equals(name, v)), env) && id in Wanted(u, Some(Equals(name, v)), env)
  {
    hide NormalizeIdentifier, Stored, Takes, Indexed, SameNumber;
  }

  lemma StoredFinite(ty: ColumnType, v: Value, env: Env)
    requires Takes(ty, v, env)
    ensures Finite(Stored(ty, v, env))
  {}

  lemma WellFormedIsSound(t: Table, env: Env)
    requires WellFormed(t, Tok(env, env.tokenizer))
    ensures Sound(t, env)
  {
    hide WellFormed;
  }
}
