/** What INSERT, UPDATE, DELETE and SELECT mean in terms of rows and filters alone, with no index in sight. */
module TableMeaning {
  import opened Basics
  import opened Values
  import Codec
  import opened Ast
  import opened Tables
  import opened TableFacts
  import opened Selects
  import opened AccessPaths

  // ---------------------------------------------------------------- values and assignments

  /** A column takes exactly the values that fit it, vectors of the configured dimension only, unchanged but for
      integers, which become floats in a float column. */
  lemma ValidatedIff(c: Column, v: Value, env: Env)
    ensures ValidateValue(c, v, env) ==
            if c.ty.FloatType? && v.Integer? then Ok(Float(env.toFloat(v.i)))
            else if Fits(c.ty, v) && (v.Vector? && env.dimensions.Some? ==> |v.v| == env.dimensions.value) then Ok(v)
            else Err(Execution)
  {}

  /** The value the last assignment to a column gives it. */
  function LastAssigned(norm: seq<(string, Value)>, name: string): Option<Value> {
    if norm == [] then None
    else if norm[|norm| - 1].0 == name then Some(norm[|norm| - 1].1)
    else LastAssigned(norm[..|norm| - 1], name)
  }

  lemma {:induction false} LastAssignedFront(norm: seq<(string, Value)>, name: string)
    requires norm != []
    ensures LastAssigned(norm, name) ==
            if LastAssigned(norm[1..], name).Some? then LastAssigned(norm[1..], name)
            else if norm[0].0 == name then Some(norm[0].1) else None
  {
    var n := |norm| - 1;
    if n > 0 && norm[n].0 != name {
      LastAssignedFront(norm[..n], name);
      assert norm[..n][1..] == norm[1..][..n - 1];
    }
  }

  /** Assigning from left to right leaves each column with its last assigned value, and the others alone. */
  lemma {:induction false} AssignAt(row: Row, norm: seq<(string, Value)>, name: string)
    ensures var last := LastAssigned(norm, name);
            && (name in Assign(row, norm) <==> name in row || last.Some?)
            && (name in Assign(row, norm) ==> Assign(row, norm)[name] == if last.Some? then last.value else row[name])
    decreases norm
  {
    if norm != [] {
      AssignAt(row[norm[0].0 := norm[0].1], norm[1..], name);
      LastAssignedFront(norm, name);
    }
  }

  /** Resolving assignments succeeds exactly when every one names a column that takes its value. */
  lemma {:induction false} NormalizedAt(columns: seq<Column>, assignments: seq<(string, Value)>, env: Env)
    ensures var r := NormalizeAssignments(columns, assignments, env);
            && (r.Ok? <==> forall i :: 0 <= i < |assignments| ==> Resolves(columns, assignments[i], env))
            && (r.Ok? ==>
                  && |r.value| == |assignments|
                  && forall i :: 0 <= i < |assignments| ==> r.value[i] == Resolved(columns, assignments[i], env))
  {
    hide FindColumn, ValidateValue;
    if assignments != [] {
      NormalizedAt(columns, assignments[1..], env);
      assert forall i :: 0 < i < |assignments| ==> assignments[i] == assignments[1..][i - 1];
      assert forall i :: 0 <= i < |assignments| - 1 ==> assignments[1..][i] == assignments[i + 1];
    }
  }

  predicate Resolves(columns: seq<Column>, a: (string, Value), env: Env) {
    FindColumn(columns, a.0).Some? && ValidateValue(FindColumn(columns, a.0).value, a.1, env).Ok?
  }

  function Resolved(columns: seq<Column>, a: (string, Value), env: Env): (string, Value)
    requires Resolves(columns, a, env)
  {
    (FindColumn(columns, a.0).value.name, ValidateValue(FindColumn(columns, a.0).value, a.1, env).value)
  }

  function Pairs(targets: seq<string>, values: seq<Value>): (r: seq<(string, Value)>)
    requires |targets| == |values|
    ensures |r| == |targets| && forall i :: 0 <= i < |r| ==> r[i] == (targets[i], values[i])
  {
    seq(|targets|, i requires 0 <= i < |targets| => (targets[i], values[i]))
  }

  /** INSERT builds the row that the same assignments would make of a given row. */
  lemma {:induction false} FillIsAssign(columns: seq<Column>, targets: seq<string>, values: seq<Value>, env: Env,
                                        row: Row)
    requires |targets| == |values|
    ensures FillRow(columns, targets, values, env, row) ==
            match NormalizeAssignments(columns, Pairs(targets, values), env)
            case Err(e) => Err(e)
            case Ok(norm) => Ok(Assign(row, norm))
  {
    hide FindColumn, ValidateValue;
    if targets != [] {
      assert Pairs(targets, values)[1..] == Pairs(targets[1..], values[1..]);
      var c := FindColumn(columns, targets[0]);
      if c.Some? && ValidateValue(c.value, values[0], env).Ok? {
        var v := ValidateValue(c.value, values[0], env).value;
        FillIsAssign(columns, targets[1..], values[1..], env, row[c.value.name := v]);
        var rest := NormalizeAssignments(columns, Pairs(targets[1..], values[1..]), env);
        if rest.Ok? { assert ([(c.value.name, v)] + rest.value)[1..] == rest.value; }
      }
    }
  }

  // ---------------------------------------------------------------- INSERT

  /** The assignments an INSERT amounts to. */
  function InsertPairs(t: Table, targets: Option<seq<string>>, values: seq<Value>): Option<seq<(string, Value)>> {
    if |Targets(t, targets)| == |values| then Some(Pairs(Targets(t, targets), values)) else None
  }

  /** INSERT succeeds if and only if there are as many values as columns, each fits, and the primary key is given, not
      null and not in use; it then adds one row, at the next row id, that holds the given values and null elsewhere. */
  lemma InsertMeaning(t: Table, targets: Option<seq<string>>, values: seq<Value>, env: Env)
    requires Core(t)
    ensures var pairs := InsertPairs(t, targets, values);
            var norm := if pairs.Some? then NormalizeAssignments(t.columns, pairs.value, env) else Err(Execution);
            var r := InsertRow(t, targets, values, env);
            && (r.Ok? <==> norm.Ok? && KeyIsNew(t, Assign(NullRow(t.columns), norm.value)))
            && (r.Ok? ==>
                  && t.nextRowId !in t.rows
                  && r.value.rows == t.rows[t.nextRowId := Assign(NullRow(t.columns), norm.value)]
                  && r.value.nextRowId == t.nextRowId + 1)
  {
    hide Buildable, Built, NewRow, PrimaryFree, Core, NormalizeAssignments, Assign, KeyIsNew, NullRow, FillRow;
    NewRowIs(t, targets, values, env);
    var made := NewRow(t, targets, values, env);
    if made.Ok? {
      CoreShape(t);
      NewRowFits(t, targets, values, env);
      FreeIff(t, made.value);
      if PrimaryFree(t, made.value) {
        InsertSound(t, targets, values, env);
        BuiltKeeps(WithRow(t, made.value), Tok(env, env.tokenizer));
      }
    }
  }

  lemma NewRowIs(t: Table, targets: Option<seq<string>>, values: seq<Value>, env: Env)
    ensures var pairs := InsertPairs(t, targets, values);
            var norm := if pairs.Some? then NormalizeAssignments(t.columns, pairs.value, env) else Err(Execution);
            var made := NewRow(t, targets, values, env);
            (made.Ok? <==> norm.Ok?) && (made.Ok? ==> made.value == Assign(NullRow(t.columns), norm.value))
  {
    hide NormalizeAssignments, Assign, NullRow, FillRow;
    if |Targets(t, targets)| == |values| {
      FillIsAssign(t.columns, Targets(t, targets), values, env, NullRow(t.columns));
    }
  }

  lemma BuiltKeeps(t: Table, tok: string -> seq<string>)
    requires Buildable(t)
    ensures Built(t, tok).rows == t.rows && Built(t, tok).nextRowId == t.nextRowId
  {
    hide Buildable, BuildPrimary, BuildIndexes, BuildFulltext;
  }

  /** A row's primary key is there, is not null, and is no other row's. */
  predicate KeyIsNew(t: Table, row: Row) {
    t.primaryKey.Some? ==>
      var pk := t.primaryKey.value;
      && pk in row && !row[pk].Null?
      && forall id :: id in t.rows && pk in t.rows[id] ==> t.rows[id][pk] != row[pk]
  }

  lemma FreeIff(t: Table, row: Row)
    requires Core(t) && RowFits(row, t.columns)
    ensures PrimaryFree(t, row) <==> KeyIsNew(t, row)
  {
    if t.primaryKey.Some? {
      var pk := t.primaryKey.value;
      PrimaryNamed(t);
      FittingFinite(row, t.columns, pk);
      KeyInUse(t.rows, pk, row[pk]);
    }
  }

  lemma PrimaryNamed(t: Table)
    requires Core(t) && t.primaryKey.Some?
    ensures t.primaryKey.value in Names(t.columns) && PrimaryOk(t.rows, t.primaryKey.value)
    ensures t.primary == BuildPrimary(t.rows, t.primaryKey.value)
  {
    hide PrimaryOk, BuildPrimary, BuildIndexes, RowFits, ColumnIndexable;
  }

  lemma FittingFinite(row: Row, columns: seq<Column>, name: string)
    requires RowFits(row, columns) && name in Names(columns)
    ensures name in row && Finite(row[name])
  {
    var i :| 0 <= i < |columns| && columns[i].name == name;
    assert Fits(columns[i].ty, row[columns[i].name]);
  }

  lemma KeyInUse(rows: map<nat, Row>, pk: string, v: Value)
    requires PrimaryOk(rows, pk) && Finite(v)
    ensures Codec.IndexKey(v).Ok?
    ensures Codec.IndexKey(v).value in BuildPrimary(rows, pk) <==> exists id :: id in rows && rows[id][pk] == v
  {
    Codec.IndexKeyNamesValue(v);
    forall id | id in rows ensures KeyAt(rows[id], pk) == Codec.IndexKey(v).value <==> rows[id][pk] == v {
      Codec.IndexKeyInjective(rows[id][pk], v);
      Codec.IndexKeyNamesValue(rows[id][pk]);
    }
  }

  // ---------------------------------------------------------------- DELETE and UPDATE

  /** The rows a filter finds are those it holds of, unless the lookup takes an index that disagrees with the scan. */
  ghost predicate FoundMeans(t: Table, filter: Option<Filter>, env: Env) {
    && Found(t, filter, env) <= t.rows.Keys
    && (Found(t, filter, env) == Hits(t.rows, filter, env) <==> PathAgrees(t, filter, env, FilledBy(t, env)))
  }

  lemma FoundMeaning(t: Table, filter: Option<Filter>, env: Env)
    requires Sound(t, env) && NormalizeFilter(t.columns, filter, env).Ok?
    ensures FoundMeans(t, NormalizeFilter(t.columns, filter, env).value, env)
  {
    hide Sound, NormalizeFilter, Found, Hits, PathAgrees, FilledBy;
    NormalizedKind(t.columns, filter, env);
    FoundInRows(t, NormalizeFilter(t.columns, filter, env).value, env);
    FoundIsHitsIff(t, NormalizeFilter(t.columns, filter, env).value, env);
  }

  /** DELETE succeeds if and only if the filter is accepted; it removes exactly the rows the filter finds, and the
      rows left and the reported count add up to the rows before. */
  lemma DeleteMeaning(t: Table, filter: Option<Filter>, env: Env)
    requires Sound(t, env)
    ensures var (f, r) := (NormalizeFilter(t.columns, filter, env), DeleteRows(t, filter, env));
            && (r.Ok? <==> f.Ok?)
            && (r.Ok? ==>
                  && FoundMeans(t, f.value, env)
                  && r.value.0.rows == t.rows - Found(t, f.value, env)
                  && r.value.1 == |Found(t, f.value, env)|
                  && |r.value.0.rows| + r.value.1 == |t.rows|)
  {
    hide NormalizeFilter, Sound, Matching, Rebuild, WithoutRows, Found, FoundMeans, Core, Shape, Buildable, Ascending;
    MatchingFinds(t, filter, env);
    SoundIsCore(t, env);
    var f := NormalizeFilter(t.columns, filter, env);
    if f.Ok? {
      var ids := Ascending(Found(t, f.value, env));
      FoundMeaning(t, filter, env);
      FoundInRows(t, f.value, env);
      DeleteRebuilds(t, ids);
      RebuiltRows(t, WithoutRows(t.rows, ids), Tok(env, env.tokenizer));
      WithoutFound(t.rows, Found(t, f.value, env));
    }
  }

  lemma WithoutFound(rows: map<nat, Row>, found: set<nat>)
    requires found <= rows.Keys
    ensures WithoutRows(rows, Ascending(found)) == rows - found
    ensures |rows - found| + |found| == |rows|
  {
    hide WithoutRows, Ascending;
    WithoutAscending(rows, found);
    assert (rows - found).Keys == rows.Keys - found;
    RemovedCount(rows, rows - found, found);
  }

  lemma WithoutAscending(rows: map<nat, Row>, found: set<nat>)
    ensures WithoutRows(rows, Ascending(found)) == rows - found
  {
    hide Ascending;
    assert forall id :: id in Ascending(found) <==> id in found;
  }

  lemma RebuiltRows(t: Table, rows: map<nat, Row>, tok: string -> seq<string>)
    ensures var r := Rebuild(t.(rows := rows), tok);
            (r.Ok? <==> Buildable(t.(rows := rows))) && (r.Ok? ==> r.value.rows == rows)
  {
    hide Buildable, BuildPrimary, BuildIndexes, BuildFulltext;
  }

  lemma RemovedCount(before: map<nat, Row>, after: map<nat, Row>, gone: set<nat>)
    requires gone <= before.Keys && after.Keys == before.Keys - gone
    ensures |after| + |gone| == |before|
  {
    assert |before.Keys - gone| == |before.Keys| - |gone|;
    assert |after| == |after.Keys| && |before| == |before.Keys|;
  }

  /** UPDATE assigns to exactly the rows the filter finds and reports how many there were; it succeeds if and only if
      filter and assignments are accepted and the new rows have distinct, non-null primary keys. */
  lemma UpdateMeaning(t: Table, assignments: seq<(string, Value)>, filter: Option<Filter>, env: Env)
    requires Sound(t, env)
    ensures var (f, norm) := (NormalizeFilter(t.columns, filter, env),
                              NormalizeAssignments(t.columns, assignments, env));
            var (u, r) := UpdateRows(t, assignments, filter, env);
            && (r.Ok? <==>
                  && f.Ok? && norm.Ok?
                  && (t.primaryKey.Some? ==>
                        PrimaryOk(Updated(t.rows, Found(t, f.value, env), norm.value), t.primaryKey.value)))
            && (r.Ok? ==>
                  && FoundMeans(t, f.value, env)
                  && u.rows == Updated(t.rows, Found(t, f.value, env), norm.value)
                  && r.value == |Found(t, f.value, env)|)
            && (r.Err? ==> u == t || u == t.(fulltext := BuildFulltext(t.rows, t.fulltext, Tok(env, env.tokenizer))))
  {
    hide NormalizeFilter, NormalizeAssignments, Sound, Matching, Rebuild, Ascending, Updated, AssignAll, PrimaryOk,
         Core, AssignmentsFit, Buildable, BuildFulltext, Found, FoundMeans;
    MatchingFinds(t, filter, env);
    SoundIsCore(t, env);
    RebuildOfCore(t, Tok(env, env.tokenizer));
    var (f, norm) := (NormalizeFilter(t.columns, filter, env), NormalizeAssignments(t.columns, assignments, env));
    if f.Ok? && norm.Ok? {
      var found := Found(t, f.value, env);
      FoundMeaning(t, filter, env);
      UpdatedIs(t.rows, found, norm.value);
      var rows := AssignAll(t.rows, Ascending(found), norm.value);
      CoreShape(t);
      NormalizedFit(t.columns, assignments, env);
      AssignAllShape(t, Ascending(found), norm.value);
      BuildableIff(t, rows);
      RebuiltRows(t, rows, Tok(env, env.tokenizer));
    }
  }

  /** The rows after an UPDATE of the found ones. */
  function Updated(rows: map<nat, Row>, found: set<nat>, norm: seq<(string, Value)>): map<nat, Row> {
    map id | id in rows :: if id in found then Assign(rows[id], norm) else rows[id]
  }

  lemma UpdatedIs(rows: map<nat, Row>, found: set<nat>, norm: seq<(string, Value)>)
    ensures Updated(rows, found, norm) == AssignAll(rows, Ascending(found), norm)
  {
    hide Assign, Ascending;
  }

  lemma BuildableIff(t: Table, rows: map<nat, Row>)
    requires Shape(t.(rows := rows))
    ensures Buildable(t.(rows := rows)) <==> (t.primaryKey.Some? ==> PrimaryOk(rows, t.primaryKey.value))
  {
    hide PrimaryOk, RowFits;
    ShapeIndexable(t.(rows := rows));
  }

  // ---------------------------------------------------------------- SELECT

  predicate HasVector(rows: map<nat, Row>, id: nat, column: string) {
    id in rows && column in rows[id] && rows[id][column].Vector?
  }

  predicate Scorable(rows: map<nat, Row>, id: nat, column: string, target: seq<F32>, env: Env) {
    HasVector(rows, id, column) && env.distance(rows[id][column].v, target).Ok?
  }

  /** A row's place in a vector order: its distance, then its id. */
  function Score(rows: map<nat, Row>, id: nat, column: string, target: seq<F32>, env: Env): Scored
    requires Scorable(rows, id, column, target, env)
  {
    (env.distance(rows[id][column].v, target).value, id)
  }

  /** An order is accepted when it names a vector column, its target has the configured dimension, and every selected
      row with a vector has a distance. */
  predicate OrderOk(t: Table, hits: set<nat>, order: Option<Order>, env: Env) {
    match order
    case None => true
    case Some(VectorDistance(column, target, _)) =>
      && FindColumn(t.columns, column).Some? && FindColumn(t.columns, column).value.ty.VectorType?
      && (env.dimensions.Some? ==> |target| == env.dimensions.value)
      && forall id :: id in hits && HasVector(t.rows, id, column) ==> Scorable(t.rows, id, column, target, env)
  }

  /** The selected ids in order: all of them by id, or those with a vector, each once, by score. */
  ghost predicate InOrder(t: Table, hits: set<nat>, order: Option<Order>, env: Env, ids: seq<nat>)
    requires OrderOk(t, hits, order, env)
  {
    match order
    case None => StrictlyAscending(ids) && forall id :: id in ids <==> id in hits
    case Some(VectorDistance(column, target, descending)) =>
      && (forall id :: id in ids <==> id in hits && HasVector(t.rows, id, column))
      && forall i, j :: 0 <= i < j < |ids| ==>
           ids[i] != ids[j]
           && Before(Score(t.rows, ids[i], column, target, env), Score(t.rows, ids[j], column, target, env), descending)
  }

  lemma {:induction false} ScorePassOkIff(rows: map<nat, Row>, ids: seq<nat>, column: string, target: seq<F32>,
                                          env: Env)
    ensures ScorePass(rows, ids, column, target, env).Ok? <==>
            forall id :: id in ids && HasVector(rows, id, column) ==> Scorable(rows, id, column, target, env)
  {
    if ids != [] {
      ScorePassOkIff(rows, ids[1..], column, target, env);
      if ScorePass(rows, ids[1..], column, target, env).Err? {
        var id :| id in ids[1..] && HasVector(rows, id, column) && !Scorable(rows, id, column, target, env);
        assert id in ids;
      }
      assert ids[0] in ids && forall id :: id in ids ==> id == ids[0] || id in ids[1..];
    }
  }

  /** The scored rows: those with a vector, each with its score, by ascending id. */
  ghost predicate Scores(rows: map<nat, Row>, ids: seq<nat>, column: string, target: seq<F32>, env: Env,
                         scored: seq<Scored>)
  {
    && (forall i :: 0 <= i < |scored| ==>
          scored[i].1 in ids && Scorable(rows, scored[i].1, column, target, env) &&
          scored[i] == Score(rows, scored[i].1, column, target, env))
    && (forall id :: id in ids && Scorable(rows, id, column, target, env) ==>
        Score(rows, id, column, target, env) in scored)
    && forall i, j :: 0 <= i < j < |scored| ==> scored[i].1 < scored[j].1
  }

  lemma {:induction false} ScorePassScores(rows: map<nat, Row>, ids: seq<nat>, column: string, target: seq<F32>,
                                           env: Env)
    requires StrictlyAscending(ids) && ScorePass(rows, ids, column, target, env).Ok?
    ensures Scores(rows, ids, column, target, env, ScorePass(rows, ids, column, target, env).value)
  {
    if ids != [] {
      ScorePassScores(rows, ids[1..], column, target, env);
      var rest := ScorePass(rows, ids[1..], column, target, env).value;
      if Scorable(rows, ids[0], column, target, env) { ScoresCons(rows, ids, column, target, env, rest); }
      else { ScoresSkip(rows, ids, column, target, env, rest); }
    }
  }

  lemma AscendingCons(ids: seq<nat>, head: Scored, rest: seq<Scored>)
    requires ids != [] && StrictlyAscending(ids) && head.1 == ids[0]
    requires forall i :: 0 <= i < |rest| ==> rest[i].1 in ids[1..]
    requires forall i, j :: 0 <= i < j < |rest| ==> rest[i].1 < rest[j].1
    ensures var all := [head] + rest; forall i, j :: 0 <= i < j < |all| ==> all[i].1 < all[j].1
  {
    var all := [head] + rest;
    assert forall i :: 0 < i < |all| ==> all[i] == rest[i - 1];
    assert forall id :: id in ids[1..] ==> ids[0] < id;
  }

  lemma ScoresCons(rows: map<nat, Row>, ids: seq<nat>, column: string, target: seq<F32>, env: Env, rest: seq<Scored>)
    requires ids != [] && StrictlyAscending(ids) && Scorable(rows, ids[0], column, target, env)
    requires Scores(rows, ids[1..], column, target, env, rest)
    ensures Scores(rows, ids, column, target, env, [Score(rows, ids[0], column, target, env)] + rest)
  {
    var head := Score(rows, ids[0], column, target, env);
    AscendingCons(ids, head, rest);
    hide StrictlyAscending, Scorable, Score;
    var all := [head] + rest;
    assert forall i :: 0 < i < |all| ==> all[i] == rest[i - 1];
    assert forall id :: id in ids <==> id == ids[0] || id in ids[1..];
    forall id | id in ids && Scorable(rows, id, column, target, env)
      ensures Score(rows, id, column, target, env) in all
    {
      if id == ids[0] { assert all[0] == Score(rows, id, column, target, env); }
    }
  }

  lemma ScoresSkip(rows: map<nat, Row>, ids: seq<nat>, column: string, target: seq<F32>, env: Env, rest: seq<Scored>)
    requires ids != [] && !Scorable(rows, ids[0], column, target, env) &&
             Scores(rows, ids[1..], column, target, env, rest)
    ensures Scores(rows, ids, column, target, env, rest)
  {
    hide Scorable, Score;
    assert forall id :: id in ids ==> id == ids[0] || id in ids[1..];
  }

  ghost predicate DistinctIds(s: seq<Scored>) { forall i, j :: 0 <= i < j < |s| ==> s[i].1 != s[j].1 }

  lemma {:induction false} OnlyOnce(s: seq<Scored>, p: Scored)
    requires DistinctIds(s)
    ensures multiset(s)[p] <= 1
  {
    if s != [] {
      assert s == [s[0]] + s[1..];
      OnlyOnce(s[1..], p);
      if s[0] == p { assert forall i :: 0 < i < |s| ==> s[i] != p; assert p !in s[1..]; }
    }
  }

  lemma Twice(s: seq<Scored>, i: nat, j: nat)
    requires i < j < |s| && s[i] == s[j]
    ensures multiset(s)[s[i]] >= 2
  {
    assert s == s[..j] + s[j..];
    assert s[i] in s[..j] && s[j] in s[j..];
  }

  /** Sorting keeps each scored row once. */
  lemma SortedOnce(scored: seq<Scored>, descending: bool)
    requires DistinctIds(scored)
    ensures var sorted := SortScored(scored, descending);
            (forall p :: p in sorted <==> p in scored) && DistinctIds(sorted)
  {
    hide SortScored;
    var sorted := SortScored(scored, descending);
    forall p ensures p in sorted <==> p in scored {
      assert p in multiset(sorted) <==> p in multiset(scored);
    }
    forall i, j | 0 <= i < j < |sorted| ensures sorted[i].1 != sorted[j].1 {
      assert sorted[i] in scored && sorted[j] in scored;
      OnlyOnce(scored, sorted[i]);
      if sorted[i].1 == sorted[j].1 { Twice(sorted, i, j); }
    }
  }

  lemma OrderMeaning(t: Table, hits: set<nat>, order: Option<Order>, env: Env)
    ensures var r := OrderedIds(t, Ascending(hits), order, env);
            (r.Ok? <==> OrderOk(t, hits, order, env)) && (r.Ok? ==> InOrder(t, hits, order, env, r.value))
  {
    hide Ascending, SortScored, ScorePass, FindColumn, Before, HasVector, Scorable, Score;
    if order.Some? {
      var o := order.value;
      ScorePassOkIff(t.rows, Ascending(hits), o.column, o.target, env);
      if OrderOk(t, hits, order, env) { SortedInOrder(t, hits, o, env); }
    }
  }

  lemma SortedInOrder(t: Table, hits: set<nat>, o: Order, env: Env)
    requires OrderOk(t, hits, Some(o), env) && ScorePass(t.rows, Ascending(hits), o.column, o.target, env).Ok?
    ensures InOrder(t, hits, Some(o), env,
                    RowIds(SortScored(ScorePass(t.rows, Ascending(hits), o.column, o.target, env).value, o.descending)))
  {
    hide Ascending, SortScored, ScorePass, FindColumn, Before, HasVector;
    var ids := Ascending(hits);
    ScorePassScores(t.rows, ids, o.column, o.target, env);
    var scored := ScorePass(t.rows, ids, o.column, o.target, env).value;
    SortedOnce(scored, o.descending);
    InOrderOf(t, hits, o, env, scored, SortScored(scored, o.descending));
  }

  lemma InOrderOf(t: Table, hits: set<nat>, o: Order, env: Env, scored: seq<Scored>, sorted: seq<Scored>)
    requires OrderOk(t, hits, Some(o), env) && Scores(t.rows, Ascending(hits), o.column, o.target, env, scored)
    requires SortedBy(sorted, o.descending) && forall p :: p in sorted <==> p in scored
    requires DistinctIds(sorted)
    ensures InOrder(t, hits, Some(o), env, RowIds(sorted))
  {
    hide Ascending, FindColumn, Before;
    forall i | 0 <= i < |sorted|
      ensures sorted[i].1 in hits && Scorable(t.rows, sorted[i].1, o.column, o.target, env)
      ensures sorted[i] == Score(t.rows, sorted[i].1, o.column, o.target, env)
    {
      assert sorted[i] in scored;
    }
    var out := RowIds(sorted);
    forall id | id in hits && HasVector(t.rows, id, o.column) ensures id in out {
      var p := Score(t.rows, id, o.column, o.target, env);
      assert p in sorted;
      var k :| 0 <= k < |sorted| && sorted[k] == p;
      assert out[k] == id;
    }
  }

  /** SELECT succeeds if and only if projection, filter and order are accepted. It returns the projections of exactly
      the rows the filter finds (with an order, of those with a vector), by row id or by score, cut to the limit. */
  lemma SelectMeaning(t: Table, projection: Projection, filter: Option<Filter>, order: Option<Order>,
                      limit: Option<nat>, env: Env)
    returns (ids: seq<nat>)
    requires Sound(t, env)
    ensures var f := NormalizeFilter(t.columns, filter, env);
            var r := SelectRows(t, projection, filter, order, limit, env);
            && (r.Ok? <==>
                ProjectionOk(t.columns, projection) && f.Ok? && OrderOk(t, Found(t, f.value, env), order, env))
            && (r.Ok? ==>
                  && FoundMeans(t, f.value, env)
                  && InOrder(t, Found(t, f.value, env), order, env, ids)
                  && |r.value| == (if limit.Some? && limit.value < |ids| then limit.value else |ids|)
                  && forall i :: 0 <= i < |r.value| ==>
                       ids[i] in t.rows && r.value[i] == ProjectRow(t.rows[ids[i]], projection))
  {
    hide NormalizeFilter, Sound, Matching, Ascending, ProjectRow, ProjectionOk, ProjectAll, OrderedIds, OrderOk,
         InOrder, Found, FoundMeans;
    MatchingFinds(t, filter, env);
    ids := [];
    var f := NormalizeFilter(t.columns, filter, env);
    if f.Ok? {
      var found := Found(t, f.value, env);
      FoundMeaning(t, filter, env);
      FoundInRows(t, f.value, env);
      OrderMeaning(t, found, order, env);
      if OrderOk(t, found, order, env) {
        ids := OrderedIds(t, Ascending(found), order, env).value;
        InOrderInRows(t, found, order, env, ids);
        ProjectAllAt(t.rows, Limited(ids, limit), projection);
      }
    }
  }

  lemma InOrderInRows(t: Table, hits: set<nat>, order: Option<Order>, env: Env, ids: seq<nat>)
    requires OrderOk(t, hits, order, env) && InOrder(t, hits, order, env, ids) && hits <= t.rows.Keys
    ensures forall i :: 0 <= i < |ids| ==> ids[i] in t.rows
  {
    hide Before, Score;
    forall i | 0 <= i < |ids| ensures ids[i] in t.rows { assert ids[i] in ids; }
  }

  lemma {:induction false} ProjectAllAt(rows: map<nat, Row>, ids: seq<nat>, projection: Projection)
    requires forall i :: 0 <= i < |ids| ==> ids[i] in rows
    ensures var r := ProjectAll(rows, ids, projection);
            |r| == |ids| && forall i :: 0 <= i < |ids| ==> r[i] == ProjectRow(rows[ids[i]], projection)
  {
    hide ProjectRow;
    if ids != [] {
      ProjectAllAt(rows, ids[1..], projection);
      assert forall i :: 0 < i < |ids| ==> ids[i] == ids[1..][i - 1];
    }
  }
}
