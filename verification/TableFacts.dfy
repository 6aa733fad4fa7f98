/** What every table operation keeps, and why the index rebuild that ends it cannot fail. */
module TableFacts {
  import opened Basics
  import opened Values
  import opened Codec
  import opened Ast
  import opened Tables

  // ---------------------------------------------------------------- rebuilding

  /** Everything about a well-formed table except which tokeniser filled its full-text maps. */
  predicate Core(t: Table) {
    && Shape(t)
    && Buildable(t)
    && t.primary == (if t.primaryKey.Some? then BuildPrimary(t.rows, t.primaryKey.value) else map[])
    && t.indexes == BuildIndexes(t.rows, t.indexes)
  }

  lemma SoundIsCore(t: Table, env: Env)
    requires Sound(t, env)
    ensures Core(t)
  {}

  lemma WellFormedIsCore(t: Table, tok: string -> seq<string>)
    requires WellFormed(t, tok)
    ensures Core(t)
  {
    hide Shape, PrimaryOk, ColumnIndexable, BuildPrimary, BuildIndexes, BuildFulltext;
  }

  lemma CoreShape(t: Table)
    requires Core(t)
    ensures Shape(t) && t.nextRowId !in t.rows
  {
    hide Buildable, BuildPrimary, BuildIndexes, RowFits;
  }

  lemma BuildIndexesTwice(rows: map<nat, Row>, indexes: map<string, Index>)
    requires forall n :: n in indexes ==> ColumnIndexable(rows, indexes[n].column)
    ensures var built := BuildIndexes(rows, indexes);
            && (forall n :: n in built ==> ColumnIndexable(rows, built[n].column))
            && BuildIndexes(rows, built) == built
  {}

  lemma BuildFulltextTwice(rows: map<nat, Row>, indexes: map<string, Index>, tok: string -> seq<string>)
    ensures BuildFulltext(rows, BuildFulltext(rows, indexes, tok), tok) == BuildFulltext(rows, indexes, tok)
  {}

  /** What a rebuild puts in the maps depends on the definitions alone. */
  lemma SameIndexesBuild(rows: map<nat, Row>, a: map<string, Index>, b: map<string, Index>)
    requires SameDefinitions(a, b) && forall n :: n in b ==> ColumnIndexable(rows, b[n].column)
    ensures (forall n :: n in a ==> ColumnIndexable(rows, a[n].column)) &&
            BuildIndexes(rows, a) == BuildIndexes(rows, b)
  {
    hide BuildEntries, ColumnIndexable;
  }

  lemma SameFulltextBuild(rows: map<nat, Row>, a: map<string, Index>, b: map<string, Index>, tok: string -> seq<string>)
    requires SameDefinitions(a, b)
    ensures BuildFulltext(rows, a, tok) == BuildFulltext(rows, b, tok)
  {
    hide BuildWords;
  }

  /** A rebuild reaches a fixed point at once: it depends on rows and definitions only. */
  lemma BuiltIsWellFormed(t: Table, tok: string -> seq<string>)
    requires Shape(t) && Buildable(t)
    ensures WellFormed(Built(t, tok), tok)
  {
    BuildIndexesTwice(t.rows, t.indexes);
    BuildFulltextTwice(t.rows, t.fulltext, tok);
  }

  /** Rebuilding a sound table touches only its full-text maps. */
  lemma RebuildOfCore(t: Table, tok: string -> seq<string>)
    requires Core(t)
    ensures Rebuild(t, tok) == Ok(t.(fulltext := BuildFulltext(t.rows, t.fulltext, tok)))
  {}

  // ---------------------------------------------------------------- rows

  lemma NullRowFits(columns: seq<Column>)
    ensures RowFits(NullRow(columns), columns)
  {}

  lemma StoreFits(row: Row, columns: seq<Column>, c: Column, v: Value)
    requires DistinctNames(columns) && RowFits(row, columns)
    requires c in columns && Fits(c.ty, v)
    ensures RowFits(row[c.name := v], columns)
  {
    var k :| 0 <= k < |columns| && columns[k] == c;
    assert c.name in Names(columns);
    assert row[c.name := v].Keys == Names(columns);
    forall i | 0 <= i < |columns|
      ensures columns[i].name in row[c.name := v] && Fits(columns[i].ty, row[c.name := v][columns[i].name])
    {
      assert columns[i].name == c.name ==> i == k;
    }
  }

  lemma {:induction false} FillRowFits(columns: seq<Column>, targets: seq<string>, values: seq<Value>, env: Env,
                                       row: Row)
    requires |targets| == |values| && DistinctNames(columns) && RowFits(row, columns)
    requires FillRow(columns, targets, values, env, row).Ok?
    ensures RowFits(FillRow(columns, targets, values, env, row).value, columns)
  {
    if targets != [] {
      var c := FindColumn(columns, targets[0]).value;
      var v := ValidateValue(c, values[0], env).value;
      StoreFits(row, columns, c, v);
      FillRowFits(columns, targets[1..], values[1..], env, row[c.name := v]);
    }
  }

  predicate FitsSome(columns: seq<Column>, name: string, v: Value) {
    exists c :: c in columns && c.name == name && Fits(c.ty, v)
  }

  predicate AssignmentsFit(columns: seq<Column>, norm: seq<(string, Value)>) {
    forall i :: 0 <= i < |norm| ==> FitsSome(columns, norm[i].0, norm[i].1)
  }

  lemma {:induction false} NormalizedFit(columns: seq<Column>, assignments: seq<(string, Value)>, env: Env)
    requires NormalizeAssignments(columns, assignments, env).Ok?
    ensures AssignmentsFit(columns, NormalizeAssignments(columns, assignments, env).value)
  {
    if assignments != [] {
      NormalizedFit(columns, assignments[1..], env);
      var rest := NormalizeAssignments(columns, assignments[1..], env).value;
      var norm := NormalizeAssignments(columns, assignments, env).value;
      assert FitsSome(columns, norm[0].0, norm[0].1);
      assert forall i :: 0 < i < |norm| ==> norm[i] == rest[i - 1];
    }
  }

  lemma {:induction false} AssignFits(row: Row, columns: seq<Column>, norm: seq<(string, Value)>)
    requires DistinctNames(columns) && RowFits(row, columns) && AssignmentsFit(columns, norm)
    ensures RowFits(Assign(row, norm), columns)
    decreases norm
  {
    if norm != [] {
      assert FitsSome(columns, norm[0].0, norm[0].1);
      var c :| c in columns && c.name == norm[0].0 && Fits(c.ty, norm[0].1);
      StoreFits(row, columns, c, norm[0].1);
      assert AssignmentsFit(columns, norm[1..]) by {
        assert forall i :: 0 <= i < |norm| - 1 ==> norm[1..][i] == norm[i + 1];
      }
      AssignFits(row[norm[0].0 := norm[0].1], columns, norm[1..]);
    }
  }

  /** Typed rows are finite, so any column of them can be indexed. */
  lemma FittingRowsIndexable(rows: map<nat, Row>, columns: seq<Column>, column: string)
    requires forall id :: id in rows ==> RowFits(rows[id], columns)
    ensures ColumnIndexable(rows, column)
  {
    forall id | id in rows && column in rows[id] ensures Finite(rows[id][column]) {
      assert column in Names(columns);
      var i :| 0 <= i < |columns| && columns[i].name == column;
      assert Fits(columns[i].ty, rows[id][columns[i].name]);
    }
  }

  lemma ShapeIndexable(t: Table)
    requires Shape(t)
    ensures forall column :: ColumnIndexable(t.rows, column)
  {
    forall column ensures ColumnIndexable(t.rows, column) {
      FittingRowsIndexable(t.rows, t.columns, column);
    }
  }

  // ---------------------------------------------------------------- the final rebuild

  lemma NewTableWellFormed(name: string, columns: seq<Column>, tok: string -> seq<string>)
    requires NewTable(name, columns).Ok?
    ensures WellFormed(NewTable(name, columns).value, tok)
  {
    var t := NewTable(name, columns).value;
    assert t.primaryKey.Some? ==> BuildPrimary(t.rows, t.primaryKey.value) == map[];
    assert BuildIndexes(t.rows, t.indexes) == map[];
    assert BuildFulltext(t.rows, t.fulltext, tok) == map[];
  }

  lemma NewRowFits(t: Table, targets: Option<seq<string>>, values: seq<Value>, env: Env)
    requires Shape(t) && NewRow(t, targets, values, env).Ok?
    ensures RowFits(NewRow(t, targets, values, env).value, t.columns)
  {
    NullRowFits(t.columns);
    FillRowFits(t.columns, Targets(t, targets), values, env, NullRow(t.columns));
  }

  /** A row whose key is not in the primary map leaves the keys unique. */
  lemma AddedKeyUnique(rows: map<nat, Row>, pk: string, id: nat, row: Row)
    requires PrimaryOk(rows, pk) && id !in rows
    requires pk in row && !row[pk].Null? && Finite(row[pk]) && KeyAt(row, pk) !in BuildPrimary(rows, pk)
    ensures PrimaryOk(rows[id := row], pk)
  {
    var w := rows[id := row];
    forall i | i in rows ensures KeyAt(w[i], pk) != KeyAt(row, pk) {
      assert w[i] == rows[i] && KeyAt(rows[i], pk) in BuildPrimary(rows, pk);
    }
    forall i, j | i in w && j in w && KeyAt(w[i], pk) == KeyAt(w[j], pk) ensures i == j {
      assert i in rows && j in rows ==> w[i] == rows[i] && w[j] == rows[j];
    }
  }

  /** From a well-formed table, the rebuild that ends an INSERT cannot fail. */
  lemma InsertRebuilds(t: Table, row: Row)
    requires Core(t) && RowFits(row, t.columns) && PrimaryFree(t, row)
    ensures Shape(WithRow(t, row)) && Buildable(WithRow(t, row))
  {
    var u := WithRow(t, row);
    ShapeIndexable(u);
    if t.primaryKey.Some? {
      IndexKeyNamesValue(row[t.primaryKey.value]);
      AddedKeyUnique(t.rows, t.primaryKey.value, t.nextRowId, row);
    }
  }

  lemma InsertSound(t: Table, targets: Option<seq<string>>, values: seq<Value>, env: Env)
    requires Core(t) && NewRow(t, targets, values, env).Ok? && PrimaryFree(t, NewRow(t, targets, values, env).value)
    ensures InsertRow(t, targets, values, env).Ok?
    ensures WellFormed(InsertRow(t, targets, values, env).value, Tok(env, env.tokenizer))
  {
    var row := NewRow(t, targets, values, env).value;
    NewRowFits(t, targets, values, env);
    InsertRebuilds(t, row);
    BuiltIsWellFormed(WithRow(t, row), Tok(env, env.tokenizer));
  }

  /** Nor can the one that ends a DELETE. */
  lemma DeleteRebuilds(t: Table, ids: seq<nat>)
    requires Core(t)
    ensures Shape(t.(rows := WithoutRows(t.rows, ids))) && Buildable(t.(rows := WithoutRows(t.rows, ids)))
  {
    var u := t.(rows := WithoutRows(t.rows, ids));
    ShapeIndexable(u);
  }

  lemma DeleteSound(t: Table, filter: Option<Filter>, env: Env)
    requires Core(t)
    ensures Matching(t, filter, env).Ok? ==> DeleteRows(t, filter, env).Ok?
    ensures DeleteRows(t, filter, env).Ok? ==> WellFormed(DeleteRows(t, filter, env).value.0, Tok(env, env.tokenizer))
  {
    if Matching(t, filter, env).Ok? {
      var ids := Matching(t, filter, env).value;
      DeleteRebuilds(t, ids);
      BuiltIsWellFormed(t.(rows := WithoutRows(t.rows, ids)), Tok(env, env.tokenizer));
    }
  }

  /** Nor can the one that ends index creation. */
  lemma AddIndexSound(t: Table, name: string, column: string, env: Env)
    requires Core(t)
    ensures FindColumn(t.columns, column).Some? && !NameTaken(t, name) ==> AddIndex(t, name, column, env).Ok?
    ensures AddIndex(t, name, column, env).Ok? ==> WellFormed(AddIndex(t, name, column, env).value, Tok(env, Simple))
  {
    if FindColumn(t.columns, column).Some? && !NameTaken(t, name) {
      var u := t.(indexes := t.indexes[name := Index(column, map[])]);
      ShapeIndexable(u);
      BuiltIsWellFormed(u, Tok(env, Simple));
    }
  }

  lemma AddFulltextSound(t: Table, name: string, column: string, env: Env)
    requires Core(t)
    ensures AddFulltext(t, name, column, env).Ok? <==>
            FindColumn(t.columns, column).Some? && FindColumn(t.columns, column).value.ty.TextType? &&
            !NameTaken(t, name)
    ensures AddFulltext(t, name, column, env).Ok? ==>
              WellFormed(AddFulltext(t, name, column, env).value, Tok(env, env.tokenizer))
  {
    if FindColumn(t.columns, column).Some? && FindColumn(t.columns, column).value.ty.TextType? && !NameTaken(t, name) {
      var u := t.(fulltext := t.fulltext[name := Index(column, map[])]);
      assert Buildable(u);
      BuiltIsWellFormed(u, Tok(env, env.tokenizer));
    }
  }

  lemma AssignAllShape(t: Table, ids: seq<nat>, norm: seq<(string, Value)>)
    requires Shape(t) && AssignmentsFit(t.columns, norm)
    ensures Shape(t.(rows := AssignAll(t.rows, ids, norm)))
  {
    forall id | id in t.rows ensures RowFits(AssignAll(t.rows, ids, norm)[id], t.columns) {
      AssignFits(t.rows[id], t.columns, norm);
    }
  }

  lemma ReassignSound(t: Table, ids: seq<nat>, norm: seq<(string, Value)>, tok: string -> seq<string>)
    requires Core(t) && AssignmentsFit(t.columns, norm)
    ensures var (u, r) := Reassign(t, ids, norm, tok);
            && (r.Ok? ==> WellFormed(u, tok))
            && (r.Err? ==> u == t.(fulltext := BuildFulltext(t.rows, t.fulltext, tok)))
  {
    var w := t.(rows := AssignAll(t.rows, ids, norm));
    AssignAllShape(t, ids, norm);
    if Buildable(w) { BuiltIsWellFormed(w, tok); } else { RebuildOfCore(t, tok); }
  }

  /** A successful UPDATE leaves a well-formed table; a failed one leaves the old rows and, in the
      full-text maps alone, whatever the configured tokeniser makes of them. */
  lemma UpdateSound(t: Table, assignments: seq<(string, Value)>, filter: Option<Filter>, env: Env)
    requires Core(t)
    ensures var (u, r) := UpdateRows(t, assignments, filter, env);
            && (r.Ok? ==> WellFormed(u, Tok(env, env.tokenizer)))
            && (r.Err? ==> u == t || u == t.(fulltext := BuildFulltext(t.rows, t.fulltext, Tok(env, env.tokenizer))))
  {
    if Matching(t, filter, env).Ok? && NormalizeAssignments(t.columns, assignments, env).Ok? {
      NormalizedFit(t.columns, assignments, env);
      ReassignSound(t, Matching(t, filter, env).value, NormalizeAssignments(t.columns, assignments, env).value,
                    Tok(env, env.tokenizer));
    }
  }

  /** A failed UPDATE restores rows and all index maps exactly, if and only if the full-text maps were
      those of the configured tokeniser or the failure came before any row was touched. */
  lemma FailedUpdateRestores(t: Table, assignments: seq<(string, Value)>, filter: Option<Filter>, env: Env)
    requires Core(t) && UpdateRows(t, assignments, filter, env).1.Err?
    ensures UpdateRows(t, assignments, filter, env).0 == t <==>
            || Matching(t, filter, env).Err?
            || NormalizeAssignments(t.columns, assignments, env).Err?
            || t.fulltext == BuildFulltext(t.rows, t.fulltext, Tok(env, env.tokenizer))
  {
    if Matching(t, filter, env).Ok? && NormalizeAssignments(t.columns, assignments, env).Ok? {
      NormalizedFit(t.columns, assignments, env);
      ReassignSound(t, Matching(t, filter, env).value, NormalizeAssignments(t.columns, assignments, env).value,
                    Tok(env, env.tokenizer));
    }
  }
}
