/** What the client is told: the outcome of every statement on a sound catalog, and the catalog it leaves, in terms
    of the rows and definitions before it. */
module Answers {
  import opened Basics
  import opened Values
  import opened Ast
  import opened Tables
  import Codec
  import opened TableFacts
  import opened Selects
  import opened AccessPaths
  import opened TableMeaning
  import opened Catalogs
  import opened Engine
  import opened Filters

  /** The same catalog but for one table. */
  predicate OnlyTable(c: Catalog, d: Catalog, n: string) {
    d.Keys == c.Keys && forall m :: m in c && m != n ==> d[m] == c[m]
  }

  /** A statement on a table that does not exist, or none that is executed on a catalog, fails and changes nothing. */
  lemma UnknownTable(c: Catalog, s: Statement, env: Env)
    requires (OnTable(s) && s.table !in c) || (!OnTable(s) && !s.CreateTable?)
    ensures Exec(c, s, env) == (c, Err(Execution))
  {}

  // ---------------------------------------------------------------- SELECT

  /** Every projected name is, in some spelling, a column. */
  predicate KnownNames(t: Table, projection: Projection) {
    projection.Columns? ==>
      forall n :: n in projection.names ==> Spelled(t, n)
  }

  /** A name is, in some spelling, that of a column. */
  predicate Spelled(t: Table, name: string) {
    exists c :: c in t.columns && c.name == NormalizeIdentifier(name)
  }

  /** The whole row, or those of its columns that are named exactly as asked. */
  ghost predicate Projects(out: Row, row: Row, projection: Projection) {
    && (forall n :: n in out <==> n in row && (projection.All? || n in projection.names))
    && forall n :: n in out ==> out[n] == row[n]
  }

  lemma ProjectionOkIff(t: Table, projection: Projection)
    requires DistinctNames(t.columns)
    ensures ProjectionOk(t.columns, projection) <==> KnownNames(t, projection)
  {
    hide NormalizeIdentifier, FindColumn;
    if projection.Columns? {
      forall n ensures FindColumn(t.columns, n).Some? <==> Spelled(t, n) { FoundColumn(t.columns, n); }
      forall i | 0 <= i < |projection.names| ensures projection.names[i] in projection.names {}
      forall n | n in projection.names ensures exists i :: 0 <= i < |projection.names| && projection.names[i] == n {}
    }
  }

  lemma ProjectedRow(row: Row, projection: Projection)
    ensures Projects(ProjectRow(row, projection), row, projection)
  {}

  /** SELECT leaves the catalog alone. It succeeds if and only if the projected names are known and filter and order are
      accepted; it then answers with one projected row for each selected row (with an order, each that has a vector), in
      order, cut to the limit. */
  lemma SelectAnswer(c: Catalog, s: Statement, env: Env) returns (ids: seq<nat>)
    requires CatalogSound(c, env) && s.Select? && s.table in c
    ensures Exec(c, s, env).0 == c
    ensures var (t, r) := (c[s.table], Exec(c, s, env).1);
            && (r.Ok? <==> KnownNames(t, s.projection) && Accepts(t, s.filter, env) &&
                           OrderOk(t, Wanted(t, s.filter, env), s.order, env))
            && (r.Ok? ==>
                  && InOrder(t, Wanted(t, s.filter, env), s.order, env, ids)
                  && r.value.Rows?
                  && |r.value.rows| == (if s.limit.Some? && s.limit.value < |ids| then s.limit.value else |ids|)
                  && forall i :: 0 <= i < |r.value.rows| ==>
                       ids[i] in t.rows && Projects(r.value.rows[i], t.rows[ids[i]], s.projection))
  {
    hide Sound, NormalizeFilter, SelectRows, Found, FoundMeans, ProjectRow, OrderOk, InOrder, Accepts, Wanted,
         ProjectionOk, KnownNames, Projects, Matching;
    var t := c[s.table];
    ids := SelectMeaning(t, s.projection, s.filter, s.order, s.limit, env);
    FilterMeans(t, s.filter, env);
    SoundNames(t, env);
    ProjectionOkIff(t, s.projection);
    forall row: Row ensures Projects(ProjectRow(row, s.projection), row, s.projection) {
      ProjectedRow(row, s.projection);
    }
    assert c[s.table := t] == c;
  }

  // ---------------------------------------------------------------- assignments

  /** No later pair names the same column. */
  predicate LastNamed(pairs: seq<(string, Value)>, k: nat)
    requires k < |pairs|
  {
    forall j :: k < j < |pairs| ==> NormalizeIdentifier(pairs[j].0) != NormalizeIdentifier(pairs[k].0)
  }

  /** Every pair names, in some spelling, a column that takes its value. */
  predicate Resolvable(t: Table, pairs: seq<(string, Value)>, env: Env) {
    forall k :: 0 <= k < |pairs| ==> Suits(t, pairs[k], env)
  }

  predicate Suits(t: Table, pair: (string, Value), env: Env) {
    exists c :: c in t.columns && c.name == NormalizeIdentifier(pair.0) && Takes(c.ty, pair.1, env)
  }

  /** A row after the pairs are assigned: a named column holds the stored form of its last value, the others what they
      held before. */
  ghost predicate Assigned(t: Table, pairs: seq<(string, Value)>, before: Row, after: Row, env: Env) {
    && after.Keys == before.Keys
    && (forall k, c :: 0 <= k < |pairs| && c in t.columns && c.name == NormalizeIdentifier(pairs[k].0) ==>
          (LastNamed(pairs, k) ==> c.name in after && after[c.name] == Stored(c.ty, pairs[k].1, env)))
    && forall n :: n in after && (forall k :: 0 <= k < |pairs| ==> NormalizeIdentifier(pairs[k].0) != n) ==>
         after[n] == before[n]
  }

  lemma {:induction false} NeverAssigned(norm: seq<(string, Value)>, n: string)
    ensures LastAssigned(norm, n).None? <==> forall j :: 0 <= j < |norm| ==> norm[j].0 != n
  {
    if norm != [] { NeverAssigned(norm[..|norm| - 1], n); }
  }

  lemma ResolvableIff(t: Table, pairs: seq<(string, Value)>, env: Env)
    requires DistinctNames(t.columns)
    ensures NormalizeAssignments(t.columns, pairs, env).Ok? <==> Resolvable(t, pairs, env)
    ensures Resolvable(t, pairs, env) ==>
              var norm := NormalizeAssignments(t.columns, pairs, env).value;
              && |norm| == |pairs|
              && forall k :: 0 <= k < |pairs| ==>
                   && norm[k].0 == NormalizeIdentifier(pairs[k].0)
                   && exists c :: c in t.columns && c.name == norm[k].0 && norm[k].1 == Stored(c.ty, pairs[k].1, env)
  {
    hide NormalizeIdentifier, ValidateValue, FindColumn, NormalizeAssignments, Takes, Stored;
    NormalizedAt(t.columns, pairs, env);
    forall k | 0 <= k < |pairs|
      ensures Resolves(t.columns, pairs[k], env) <==> Suits(t, pairs[k], env)
      ensures Resolves(t.columns, pairs[k], env) ==>
              var norm := Resolved(t.columns, pairs[k], env);
              && norm.0 == NormalizeIdentifier(pairs[k].0)
              && exists c :: c in t.columns && c.name == norm.0 && norm.1 == Stored(c.ty, pairs[k].1, env)
    {
      FoundColumn(t.columns, pairs[k].0);
      var c := FindColumn(t.columns, pairs[k].0);
      if c.Some? { ValidatedStores(c.value, pairs[k].1, env); }
    }
  }

  lemma AssignedRow(t: Table, pairs: seq<(string, Value)>, before: Row, env: Env)
    requires DistinctNames(t.columns) && Resolvable(t, pairs, env) && before.Keys == Names(t.columns)
    ensures NormalizeAssignments(t.columns, pairs, env).Ok?
    ensures Assigned(t, pairs, before, Assign(before, NormalizeAssignments(t.columns, pairs, env).value), env)
  {
    hide NormalizeIdentifier, NormalizeAssignments, Assign, Stored, LastAssigned;
    ResolvableIff(t, pairs, env);
    hide Resolvable;
    var norm := NormalizeAssignments(t.columns, pairs, env).value;
    var after := Assign(before, norm);
    forall n ensures n in after <==> n in before {
      AssignAt(before, norm, n);
      NeverAssigned(norm, n);
      forall j | 0 <= j < |norm| && norm[j].0 == n ensures n in before {
        var c :| c in t.columns && c.name == norm[j].0 && norm[j].1 == Stored(c.ty, pairs[j].1, env);
      }
    }
    forall k, c | 0 <= k < |pairs| && c in t.columns && c.name == NormalizeIdentifier(pairs[k].0) && LastNamed(pairs, k)
      ensures c.name in after && after[c.name] == Stored(c.ty, pairs[k].1, env)
    {
      LastAssignedIs(norm, k);
      AssignAt(before, norm, c.name);
      var d :| d in t.columns && d.name == norm[k].0 && norm[k].1 == Stored(d.ty, pairs[k].1, env);
      OnlyColumn(t.columns, c);
      OnlyColumn(t.columns, d);
    }
    forall n | n in after && (forall k :: 0 <= k < |pairs| ==> NormalizeIdentifier(pairs[k].0) != n)
      ensures after[n] == before[n]
    {
      NeverAssigned(norm, n);
      AssignAt(before, norm, n);
    }
  }

  // ---------------------------------------------------------------- INSERT

  /** The columns an INSERT gives values for: those it lists, or all in table order. */
  predicate GivenNames(t: Table, targets: Option<seq<string>>, names: seq<string>) {
    if targets.Some? then names == targets.value
    else |names| == |t.columns| && forall i :: 0 <= i < |names| ==> names[i] == t.columns[i].name
  }

  lemma TargetsGiven(t: Table, targets: Option<seq<string>>)
    ensures GivenNames(t, targets, Targets(t, targets))
  {}

  /** INSERT succeeds if and only if there is one value for each column, each fits, and the primary key is given,
      not null and no other row's. It then answers with one affected row, which is how many the table has grown by:
      the row asked for, at the next row id. Otherwise nothing changes. */
  lemma InsertAnswer(c: Catalog, s: Statement, env: Env) returns (names: seq<string>, row: Row)
    requires CatalogSound(c, env) && s.Insert? && s.table in c
    ensures GivenNames(c[s.table], s.targets, names)
    ensures var (t, (after, r)) := (c[s.table], Exec(c, s, env));
            && (|names| == |s.values| && Resolvable(t, Pairs(names, s.values), env) ==>
                  && (forall n :: n in NullRow(t.columns) <==> exists k :: k in t.columns && k.name == n)
                  && (forall n :: n in NullRow(t.columns) ==> NullRow(t.columns)[n] == Null)
                  && Assigned(t, Pairs(names, s.values), NullRow(t.columns), row, env))
            && (r.Ok? <==>
                  |names| == |s.values| && Resolvable(t, Pairs(names, s.values), env) && KeyIsNew(t, row))
            && (r.Err? ==> after == c)
            && (r.Ok? ==>
                  && OnlyTable(c, after, s.table)
                  && t.nextRowId !in t.rows
                  && after[s.table].rows == t.rows[t.nextRowId := row]
                  && after[s.table].nextRowId == t.nextRowId + 1
                  && r.value == Affected(|after[s.table].rows| - |t.rows|))
  {
    hide Sound, InsertRow, KeyIsNew, Resolvable, Assigned, GivenNames, Pairs, NullRow;
    names, row := InsertMakes(c[s.table], s, env);
    assert c[s.table := c[s.table]] == c;
  }

  /** The same for one table. */
  lemma InsertMakes(t: Table, s: Statement, env: Env) returns (names: seq<string>, row: Row)
    requires Sound(t, env) && s.Insert?
    ensures GivenNames(t, s.targets, names)
    ensures |names| == |s.values| && Resolvable(t, Pairs(names, s.values), env) ==>
              && (forall n :: n in NullRow(t.columns) <==> exists k :: k in t.columns && k.name == n)
              && (forall n :: n in NullRow(t.columns) ==> NullRow(t.columns)[n] == Null)
              && Assigned(t, Pairs(names, s.values), NullRow(t.columns), row, env)
    ensures var r := InsertRow(t, s.targets, s.values, env);
            && (r.Ok? <==>
                  |names| == |s.values| && Resolvable(t, Pairs(names, s.values), env) && KeyIsNew(t, row))
            && (r.Ok? ==>
                  && t.nextRowId !in t.rows
                  && r.value.rows == t.rows[t.nextRowId := row] && r.value.nextRowId == t.nextRowId + 1
                  && |r.value.rows| == |t.rows| + 1)
  {
    hide Sound, Core, NormalizeAssignments, Assign, NullRow, InsertRow, KeyIsNew, Resolvable, Assigned, Targets,
         GivenNames, Pairs;
    names := Targets(t, s.targets);
    TargetsGiven(t, s.targets);
    SoundIsCore(t, env);
    SoundNames(t, env);
    InsertMeaning(t, s.targets, s.values, env);
    row := map[];
    if |names| == |s.values| {
      var pairs := Pairs(names, s.values);
      ResolvableIff(t, pairs, env);
      if Resolvable(t, pairs, env) {
        NullRowIs(t.columns);
        AssignedRow(t, pairs, NullRow(t.columns), env);
        row := Assign(NullRow(t.columns), NormalizeAssignments(t.columns, pairs, env).value);
      }
    }
    if InsertRow(t, s.targets, s.values, env).Ok? { Grown(t.rows, t.nextRowId, row); }
  }

  lemma NullRowIs(columns: seq<Column>)
    ensures NullRow(columns).Keys == Names(columns)
    ensures forall n :: n in NullRow(columns) <==> exists k :: k in columns && k.name == n
    ensures forall n :: n in NullRow(columns) ==> NullRow(columns)[n] == Null
  {
    forall n ensures n in NullRow(columns) <==> exists k :: k in columns && k.name == n {
      if n in NullRow(columns) {
        var i :| 0 <= i < |columns| && columns[i].name == n;
        assert columns[i] in columns;
      }
      if exists k :: k in columns && k.name == n {
        var k :| k in columns && k.name == n;
        var i :| 0 <= i < |columns| && columns[i] == k;
      }
    }
  }

  lemma Grown(rows: map<nat, Row>, id: nat, row: Row)
    requires id !in rows
    ensures |rows[id := row]| == |rows| + 1
  {
    assert rows[id := row].Keys == rows.Keys + {id};
    assert |rows.Keys + {id}| == |rows.Keys| + 1;
  }

  // ---------------------------------------------------------------- DELETE

  /** DELETE succeeds if and only if the filter is accepted; it takes away exactly the selected rows and answers
      with how many the table has lost. */
  lemma DeleteAnswer(c: Catalog, s: Statement, env: Env)
    requires CatalogSound(c, env) && s.Delete? && s.table in c
    ensures var (t, (after, r)) := (c[s.table], Exec(c, s, env));
            && (r.Ok? <==> Accepts(t, s.filter, env))
            && (r.Err? ==> after == c)
            && (r.Ok? ==>
                  && OnlyTable(c, after, s.table)
                  && after[s.table].rows == t.rows - Wanted(t, s.filter, env)
                  && r.value == Affected(|t.rows| - |after[s.table].rows|)
                  && r.value == Affected(|Wanted(t, s.filter, env)|))
  {
    hide Sound, DeleteRows, Found, FoundMeans, Accepts, Wanted, NormalizeFilter, Matching;
    var t := c[s.table];
    DeleteMeaning(t, s.filter, env);
    FilterMeans(t, s.filter, env);
    assert c[s.table := t] == c;
  }

  // ---------------------------------------------------------------- UPDATE

  /** Every row has a key, and no two have the same. */
  ghost predicate DistinctKeys(rows: map<nat, Row>, pk: string) {
    && (forall id :: id in rows ==> pk in rows[id] && !rows[id][pk].Null?)
    && forall i, j :: i in rows && j in rows && i != j && pk in rows[i] && pk in rows[j] ==> rows[i][pk] != rows[j][pk]
  }

  lemma PrimaryOkIff(rows: map<nat, Row>, pk: string)
    requires forall id :: id in rows ==> pk in rows[id] && Finite(rows[id][pk])
    ensures PrimaryOk(rows, pk) <==> DistinctKeys(rows, pk)
  {
    forall i, j | i in rows && j in rows
      ensures KeyAt(rows[i], pk) == KeyAt(rows[j], pk) <==> rows[i][pk] == rows[j][pk]
    {
      Codec.IndexKeyInjective(rows[i][pk], rows[j][pk]);
      Codec.IndexKeyNamesValue(rows[i][pk]);
      Codec.IndexKeyNamesValue(rows[j][pk]);
    }
  }

  /** The rows an UPDATE asks for: the assignments made in exactly the selected rows. */
  ghost predicate Rewritten(t: Table, s: Statement, next: map<nat, Row>, env: Env)
    requires s.Update?
  {
    && next.Keys == t.rows.Keys
    && forall id :: id in next ==>
         if id in Wanted(t, s.filter, env) then Assigned(t, s.assignments, t.rows[id], next[id], env)
         else next[id] == t.rows[id]
  }

  /** UPDATE succeeds if and only if the filter is accepted, every assignment names a column that takes its value,
      and the new rows have distinct, non-null keys. It then makes the assignments in exactly the selected rows and
      answers with how many these are. Otherwise every row stays. */
  lemma UpdateAnswer(c: Catalog, s: Statement, env: Env) returns (next: map<nat, Row>)
    requires CatalogSound(c, env) && s.Update? && s.table in c
    ensures var (t, (after, r)) := (c[s.table], Exec(c, s, env));
            && (Accepts(t, s.filter, env) && Resolvable(t, s.assignments, env) ==> Rewritten(t, s, next, env))
            && (r.Ok? <==>
                  && Accepts(t, s.filter, env) && Resolvable(t, s.assignments, env)
                  && (t.primaryKey.Some? ==> DistinctKeys(next, t.primaryKey.value)))
            && OnlyTable(c, after, s.table)
            && (r.Err? ==> after[s.table].rows == t.rows)
            && (r.Ok? ==> after[s.table].rows == next && r.value == Affected(|Wanted(t, s.filter, env)|))
  {
    hide Sound, UpdateRows, Accepts, Wanted, Resolvable, Rewritten, DistinctKeys;
    next := UpdateMakes(c[s.table], s, env);
    assert Exec(c, s, env).0 == c[s.table := UpdateRows(c[s.table], s.assignments, s.filter, env).0];
  }

  /** The same for one table. */
  lemma UpdateMakes(t: Table, s: Statement, env: Env) returns (next: map<nat, Row>)
    requires Sound(t, env) && s.Update?
    ensures var (u, r) := UpdateRows(t, s.assignments, s.filter, env);
            && (Accepts(t, s.filter, env) && Resolvable(t, s.assignments, env) ==> Rewritten(t, s, next, env))
            && (r.Ok? <==>
                  && Accepts(t, s.filter, env) && Resolvable(t, s.assignments, env)
                  && (t.primaryKey.Some? ==> DistinctKeys(next, t.primaryKey.value)))
            && (r.Err? ==> u.rows == t.rows)
            && (r.Ok? ==> u.rows == next && r.value == |Wanted(t, s.filter, env)|)
  {
    hide Sound, UpdateRows, Found, FoundMeans, Accepts, Wanted, NormalizeFilter, NormalizeAssignments, Resolvable,
         Matching, PrimaryOk, DistinctKeys, BuildFulltext, Updated, Rewritten;
    next := map[];
    UpdateMeaning(t, s.assignments, s.filter, env);
    FilterMeans(t, s.filter, env);
    SoundNames(t, env);
    ResolvableIff(t, s.assignments, env);
    if Accepts(t, s.filter, env) && Resolvable(t, s.assignments, env) {
      next := Updated(t.rows, Wanted(t, s.filter, env), NormalizeAssignments(t.columns, s.assignments, env).value);
      UpdatedRewrites(t, s, env);
      UpdatedKeys(t, Wanted(t, s.filter, env), s.assignments, env);
    }
  }

  lemma UpdatedRewrites(t: Table, s: Statement, env: Env)
    requires Sound(t, env) && s.Update? && Resolvable(t, s.assignments, env)
    ensures NormalizeAssignments(t.columns, s.assignments, env).Ok?
    ensures Rewritten(t, s, Updated(t.rows, Wanted(t, s.filter, env),
                                    NormalizeAssignments(t.columns, s.assignments, env).value), env)
  {
    hide Sound, Wanted, NormalizeAssignments, Resolvable, Assigned, Assign;
    SoundNames(t, env);
    ResolvableIff(t, s.assignments, env);
    RowKeysAre(t, env);
    forall id | id in t.rows
      ensures Assigned(t, s.assignments, t.rows[id],
                       Assign(t.rows[id], NormalizeAssignments(t.columns, s.assignments, env).value), env)
    {
      AssignedRow(t, s.assignments, t.rows[id], env);
    }
  }

  lemma RowKeysAre(t: Table, env: Env)
    requires Sound(t, env)
    ensures forall id :: id in t.rows ==> t.rows[id].Keys == Names(t.columns)
  {
    hide Buildable, Built, Names, Fits;
  }

  lemma UpdatedKeys(t: Table, found: set<nat>, assignments: seq<(string, Value)>, env: Env)
    requires Sound(t, env) && NormalizeAssignments(t.columns, assignments, env).Ok?
    ensures var next := Updated(t.rows, found, NormalizeAssignments(t.columns, assignments, env).value);
            t.primaryKey.Some? ==>
              (PrimaryOk(next, t.primaryKey.value) <==> DistinctKeys(next, t.primaryKey.value))
  {
    hide Sound, Core, NormalizeAssignments, Assign, Ascending, PrimaryOk, DistinctKeys, RowFits, AssignmentsFit,
         Updated, AssignAll;
    if t.primaryKey.Some? {
      var norm := NormalizeAssignments(t.columns, assignments, env).value;
      var next := Updated(t.rows, found, norm);
      SoundIsCore(t, env);
      CoreShape(t);
      PrimaryNamed(t);
      NormalizedFit(t.columns, assignments, env);
      AssignAllShape(t, Ascending(found), norm);
      UpdatedIs(t.rows, found, norm);
      forall id | id in next ensures t.primaryKey.value in next[id] && Finite(next[id][t.primaryKey.value]) {
        FittingFinite(next[id], t.columns, t.primaryKey.value);
      }
      PrimaryOkIff(next, t.primaryKey.value);
    }
  }

  // ---------------------------------------------------------------- definitions

  /** CREATE TABLE succeeds if and only if the name is free, the columns have distinct names and at most one is the
      primary key; it adds an empty table with these columns and no index, whose first row will have id 1. */
  lemma CreateTableAnswer(c: Catalog, s: Statement, env: Env)
    requires s.CreateTable?
    ensures var (after, r) := Exec(c, s, env);
            && (r.Ok? <==>
                  && s.name !in c
                  && (forall i, j :: 0 <= i < j < |s.columns| ==> s.columns[i].name != s.columns[j].name)
                  && (forall i, j :: 0 <= i < j < |s.columns| ==>
                        !(s.columns[i].primaryKey && s.columns[j].primaryKey)))
            && (r.Err? ==> after == c)
            && (r.Ok? ==>
                  && r.value == Message
                  && after.Keys == c.Keys + {s.name} && (forall n :: n in c ==> after[n] == c[n])
                  && var t := after[s.name];
                     && t.name == s.name && t.columns == s.columns && t.rows == map[] && t.nextRowId == 1
                     && t.indexes == map[] && t.fulltext == map[]
                     && (forall i :: 0 <= i < |s.columns| && s.columns[i].primaryKey ==>
                           t.primaryKey == Some(s.columns[i].name))
                     && (t.primaryKey.Some? ==> exists i :: 0 <= i < |s.columns| && s.columns[i].primaryKey))
  {
    if s.name !in c && NewTable(s.name, s.columns).Ok? { OnlyPrimary(s.columns); }
  }

  lemma OnlyPrimary(columns: seq<Column>)
    requires OnePrimary(columns)
    ensures forall i :: 0 <= i < |columns| && columns[i].primaryKey ==> PrimaryColumn(columns) == Some(columns[i].name)
  {
    forall i | 0 <= i < |columns| && columns[i].primaryKey ensures PrimaryColumn(columns) == Some(columns[i].name) {
      var j :| 0 <= j < |columns| && columns[j].primaryKey && columns[j].name == PrimaryColumn(columns).value;
      assert i == j;
    }
  }

  /** The index definitions of a table with one more. */
  predicate OneMore(before: map<string, Index>, after: map<string, Index>, name: string, column: string) {
    && after.Keys == before.Keys + {name}
    && forall n :: n in after ==> after[n].column == if n == name then column else before[n].column
  }

  /** CREATE INDEX succeeds if and only if the table and, in some spelling, the column exist, a full-text index is
      on a text column, and no index of the table has the name; it adds that definition and changes no row. */
  lemma CreateIndexAnswer(c: Catalog, s: Statement, env: Env)
    requires CatalogSound(c, env) && s.CreateIndex? && s.table in c
    ensures var (t, (after, r)) := (c[s.table], Exec(c, s, env));
            && (r.Ok? <==>
                  && (exists k :: k in t.columns && k.name == NormalizeIdentifier(s.column) &&
                                  (s.fulltext ==> k.ty.TextType?))
                  && s.name !in t.indexes && s.name !in t.fulltext)
            && (r.Err? ==> after == c)
            && (r.Ok? ==>
                  && r.value == Message && OnlyTable(c, after, s.table)
                  && var u := after[s.table];
                     && u.name == t.name && u.columns == t.columns && u.primaryKey == t.primaryKey
                     && u.rows == t.rows && u.nextRowId == t.nextRowId
                     && (if s.fulltext
                         then SameDefinitions(t.indexes, u.indexes) && OneMore(t.fulltext, u.fulltext, s.name, s.column)
                         else OneMore(t.indexes, u.indexes, s.name, s.column)
                              && SameDefinitions(t.fulltext, u.fulltext)))
  {
    hide Sound, Core, NormalizeIdentifier, BuildEntries, BuildWords, BuildPrimary, Buildable, FindColumn, AddIndex,
         AddFulltext;
    var t := c[s.table];
    SoundIsCore(t, env);
    SoundNames(t, env);
    FoundColumn(t.columns, s.column);
    assert c[s.table := t] == c;
    if s.fulltext {
      AddFulltextSound(t, s.name, s.column, env);
      if AddFulltext(t, s.name, s.column, env).Ok? { FulltextAdded(t, s.name, s.column, env); }
    } else {
      AddIndexOkIff(t, s.name, s.column, env);
      if AddIndex(t, s.name, s.column, env).Ok? { IndexAdded(t, s.name, s.column, env); }
    }
  }

  lemma AddIndexOkIff(t: Table, name: string, column: string, env: Env)
    requires Core(t)
    ensures AddIndex(t, name, column, env).Ok? <==> FindColumn(t.columns, column).Some? && !NameTaken(t, name)
  {
    hide Core, Rebuild, FindColumn;
    AddIndexSound(t, name, column, env);
  }

  predicate Extends(t: Table, u: Table) {
    && u.name == t.name && u.columns == t.columns && u.primaryKey == t.primaryKey && u.rows == t.rows
    && u.nextRowId == t.nextRowId
  }

  lemma IndexAdded(t: Table, name: string, column: string, env: Env)
    requires AddIndex(t, name, column, env).Ok?
    ensures var u := AddIndex(t, name, column, env).value;
            Extends(t, u) && OneMore(t.indexes, u.indexes, name, column) && SameDefinitions(t.fulltext, u.fulltext)
  {
    hide Buildable, BuildEntries, BuildWords, BuildPrimary, FindColumn;
  }

  lemma FulltextAdded(t: Table, name: string, column: string, env: Env)
    requires AddFulltext(t, name, column, env).Ok?
    ensures var u := AddFulltext(t, name, column, env).value;
            Extends(t, u) && SameDefinitions(t.indexes, u.indexes) && OneMore(t.fulltext, u.fulltext, name, column)
  {
    hide Buildable, BuildEntries, BuildWords, BuildPrimary, FindColumn;
  }
}
