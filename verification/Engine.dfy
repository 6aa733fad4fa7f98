/** Statement execution on a catalog (`execute_statement_with_options`) and what it keeps. */
module Engine {
  import opened Basics
  import opened Values
  import opened Ast
  import opened Tables
  import opened TableFacts
  import opened Selects
  import opened TableMeaning
  import opened Catalogs

  datatype QueryResult = Message | Affected(count: nat) | Rows(rows: seq<Row>)

  type Outcome = Result<QueryResult, Error>

  /** Only a database with a path can fail to persist; `ok` says whether writing the file would succeed. */
  predicate CanWrite(path: bool, ok: bool) { !path || ok }

  predicate OnTable(s: Statement) {
    s.CreateIndex? || s.Insert? || s.Select? || s.Update? || s.Delete?
  }

  /** What a statement does to the table it names, and its outcome. A failed UPDATE is the one case where
      a table is touched without success. */
  function ExecTable(t: Table, s: Statement, env: Env): (Table, Outcome)
    requires OnTable(s)
  {
    match s
    case CreateIndex(name, _, column, fulltext) =>
      (match if fulltext then AddFulltext(t, name, column, env) else AddIndex(t, name, column, env)
       case Err(e) => (t, Err(e))
       case Ok(u) => (u, Ok(Message)))
    case Insert(_, targets, values) =>
      (match InsertRow(t, targets, values, env)
       case Err(e) => (t, Err(e))
       case Ok(u) => (u, Ok(Affected(1))))
    case Select(_, projection, filter, order, limit) =>
      (match SelectRows(t, projection, filter, order, limit, env)
       case Err(e) => (t, Err(e))
       case Ok(rows) => (t, Ok(Rows(rows))))
    case Update(_, assignments, filter) =>
      var (u, r) := UpdateRows(t, assignments, filter, env);
      (u, match r case Err(e) => Err(e) case Ok(n) => Ok(Affected(n)))
    case Delete(_, filter) =>
      match DeleteRows(t, filter, env)
      case Err(e) => (t, Err(e))
      case Ok((u, n)) => (u, Ok(Affected(n)))
  }

  function Exec(c: Catalog, s: Statement, env: Env): (Catalog, Outcome) {
    if s.CreateTable? then
      if s.name in c then (c, Err(Execution)) else
        match NewTable(s.name, s.columns)
        case Err(e) => (c, Err(e))
        case Ok(t) => (c[s.name := t], Ok(Message))
    else if OnTable(s) then
      if s.table !in c then (c, Err(Execution)) else
        var (u, r) := ExecTable(c[s.table], s, env);
        (c[s.table := u], r)
    else (c, Err(Execution))
  }

  // ---------------------------------------------------------------- invariants

  /** Every table is filed under its name and sound. */
  ghost predicate CatalogSound(c: Catalog, env: Env) {
    forall n :: n in c ==> c[n].name == n && Sound(c[n], env)
  }

  /** Every table is indexed with the configured tokeniser. */
  ghost predicate CatalogWellFormed(c: Catalog, env: Env) {
    forall n :: n in c ==> c[n].name == n && WellFormed(c[n], Tok(env, env.tokenizer))
  }

  lemma RefilledSound(t: Table, env: Env)
    requires Core(t)
    ensures WellFormed(t.(fulltext := BuildFulltext(t.rows, t.fulltext, Tok(env, env.tokenizer))),
                       Tok(env, env.tokenizer))
  {
    BuiltIsWellFormed(t, Tok(env, env.tokenizer));
    RebuildOfCore(t, Tok(env, env.tokenizer));
  }

  /** Any statement leaves a sound table sound. */
  lemma ExecTableSound(t: Table, s: Statement, env: Env)
    requires OnTable(s) && Sound(t, env)
    ensures Sound(ExecTable(t, s, env).0, env)
  {
    hide Shape, Buildable, Built, SelectRows, InsertRow, UpdateRows, DeleteRows, AddIndex, AddFulltext, WellFormed,
         BuildFulltext;
    assert Core(t) by { SoundIsCore(t, env); }
    hide Core;
    match s
    case CreateIndex(name, _, column, fulltext) =>
      if fulltext { AddFulltextSound(t, name, column, env); } else { AddIndexSound(t, name, column, env); }
    case Insert(_, targets, values) =>
      if InsertRow(t, targets, values, env).Ok? { InsertedSound(t, targets, values, env); }
    case Select(_, _, _, _, _) =>
    case Update(_, assignments, filter) =>
      UpdateSound(t, assignments, filter, env);
      RefilledSound(t, env);
      assert ExecTable(t, s, env).0 == UpdateRows(t, assignments, filter, env).0;
    case Delete(_, filter) => DeleteSound(t, filter, env);
  }

  lemma InsertedSound(t: Table, targets: Option<seq<string>>, values: seq<Value>, env: Env)
    requires Core(t) && InsertRow(t, targets, values, env).Ok?
    ensures WellFormed(InsertRow(t, targets, values, env).value, Tok(env, env.tokenizer))
  {
    hide Shape, Buildable, Built, WellFormed, Core, Rebuild;
    InsertSound(t, targets, values, env);
  }

  lemma ExecTableKeepsName(t: Table, s: Statement, env: Env)
    requires OnTable(s)
    ensures ExecTable(t, s, env).0.name == t.name
    ensures ExecTable(t, s, env).0.columns == t.columns && ExecTable(t, s, env).0.primaryKey == t.primaryKey
    ensures ExecTable(t, s, env).0.nextRowId >= t.nextRowId
  {
    hide Shape, Buildable, Matching, NewRow, PrimaryFree, SelectRows, BuildIndexes, BuildFulltext, BuildPrimary,
         NormalizeAssignments, AssignAll, WithoutRows, FindColumn;
  }

  /** Every statement keeps the catalog invariant. */
  lemma ExecSound(c: Catalog, s: Statement, env: Env)
    requires CatalogSound(c, env)
    ensures CatalogSound(Exec(c, s, env).0, env)
  {
    hide ExecTable, Shape, Buildable, Built, WellFormed;
    if s.CreateTable? {
      if s.name !in c && NewTable(s.name, s.columns).Ok? {
        NewTableWellFormed(s.name, s.columns, Tok(env, Simple));
      }
    } else if OnTable(s) && s.table in c {
      ExecTableSound(c[s.table], s, env);
      ExecTableKeepsName(c[s.table], s, env);
    }
  }

  /** An UPDATE that gets as far as storing rows in a table whose full-text maps are not those of the configured
      tokeniser: putting the rows back will refill those maps. */
  predicate StaleUpdate(t: Table, s: Statement, env: Env) {
    && s.Update? && Matching(t, s.filter, env).Ok? && NormalizeAssignments(t.columns, s.assignments, env).Ok?
    && t.fulltext != BuildFulltext(t.rows, t.fulltext, Tok(env, env.tokenizer))
  }

  /** The assignments would leave two rows with one primary key, or one without. */
  predicate KeyClash(t: Table, s: Statement, env: Env)
    requires s.Update? && Matching(t, s.filter, env).Ok? && NormalizeAssignments(t.columns, s.assignments, env).Ok?
  {
    var (ids, norm) := (Matching(t, s.filter, env).value, NormalizeAssignments(t.columns, s.assignments, env).value);
    t.primaryKey.Some? && !PrimaryOk(AssignAll(t.rows, ids, norm), t.primaryKey.value)
  }

  /** An UPDATE that gets as far as storing rows fails exactly on a key clash. */
  lemma UpdateErrsIff(t: Table, s: Statement, env: Env)
    requires Core(t) && s.Update?
    requires Matching(t, s.filter, env).Ok? && NormalizeAssignments(t.columns, s.assignments, env).Ok?
    ensures ExecTable(t, s, env).1.Err? <==> KeyClash(t, s, env)
  {
    hide Core, Matching, NormalizeAssignments, Rebuild, AssignAll, AssignmentsFit, Buildable, PrimaryOk;
    var (ids, norm) := (Matching(t, s.filter, env).value, NormalizeAssignments(t.columns, s.assignments, env).value);
    CoreShape(t);
    NormalizedFit(t.columns, s.assignments, env);
    AssignAllShape(t, ids, norm);
    BuildableIff(t, AssignAll(t.rows, ids, norm));
    RebuiltRows(t, AssignAll(t.rows, ids, norm), Tok(env, env.tokenizer));
  }

  /** A stale UPDATE that will fail: all of it can be read off the catalog before the call. */
  predicate BreaksIn(c: Catalog, s: Statement, env: Env) {
    StaleIn(c, s, env) && KeyClash(c[s.table], s, env)
  }

  lemma BreaksIffStaleErr(c: Catalog, s: Statement, env: Env)
    requires CatalogSound(c, env)
    ensures BreaksIn(c, s, env) <==> StaleIn(c, s, env) && Exec(c, s, env).1.Err?
  {
    hide Sound, Core, Matching, NormalizeAssignments, KeyClash, ExecTable, BuildFulltext;
    if StaleIn(c, s, env) {
      SoundIsCore(c[s.table], env);
      UpdateErrsIff(c[s.table], s, env);
    }
  }

  predicate StaleIn(c: Catalog, s: Statement, env: Env) {
    s.Update? && s.table in c && StaleUpdate(c[s.table], s, env)
  }

  /** A statement that fails leaves a sound table exactly as it was, without any backup copy, unless it is a stale
      UPDATE, which never does. */
  lemma ExecTableAtomic(t: Table, s: Statement, env: Env)
    requires OnTable(s) && Core(t) && ExecTable(t, s, env).1.Err?
    ensures ExecTable(t, s, env).0 == t <==> !StaleUpdate(t, s, env)
  {
    hide SelectRows, InsertRow, UpdateRows, DeleteRows, AddIndex, AddFulltext, Core, Matching, NormalizeAssignments,
         BuildFulltext;
    if s.Update? { FailedUpdateRestores(t, s.assignments, s.filter, env); }
  }

  /** The same for a catalog. */
  lemma ExecAtomic(c: Catalog, s: Statement, env: Env)
    requires CatalogSound(c, env) && Exec(c, s, env).1.Err?
    ensures Exec(c, s, env).0 == c <==> !StaleIn(c, s, env)
  {
    hide ExecTable, Sound, Core, StaleUpdate;
    if OnTable(s) && s.table in c {
      SoundIsCore(c[s.table], env);
      ExecTableAtomic(c[s.table], s, env);
      if !s.Update? { OnlyUpdatesStale(c[s.table], s, env); }
    }
  }

  lemma OnlyUpdatesStale(t: Table, s: Statement, env: Env)
    requires !s.Update?
    ensures !StaleUpdate(t, s, env)
  {}

  lemma WellFormedNeverStale(t: Table, s: Statement, env: Env)
    requires WellFormed(t, Tok(env, env.tokenizer))
    ensures !StaleUpdate(t, s, env)
  {
    hide Shape, Buildable, BuildPrimary, BuildIndexes, BuildFulltext, Matching, NormalizeAssignments;
  }

  /** Only mutating statements change the catalog. */
  lemma ReadersChangeNothing(c: Catalog, s: Statement, env: Env)
    requires !MutatesCatalog(s)
    ensures Exec(c, s, env).0 == c
  {
    hide SelectRows;
  }

  /** With the simple tokeniser, or without secondary index creation, every statement leaves the tables
      indexed with the configured tokeniser. */
  lemma ExecWellFormed(c: Catalog, s: Statement, env: Env)
    requires CatalogWellFormed(c, env) && (env.tokenizer == Simple || !(s.CreateIndex? && !s.fulltext))
    ensures CatalogWellFormed(Exec(c, s, env).0, env)
  {
    hide ExecTable, WellFormed;
    if s.CreateTable? {
      if s.name !in c && NewTable(s.name, s.columns).Ok? {
        NewTableWellFormed(s.name, s.columns, Tok(env, env.tokenizer));
      }
    } else if OnTable(s) && s.table in c {
      ExecTableWellFormed(c[s.table], s, env);
      ExecTableKeepsName(c[s.table], s, env);
    }
  }

  lemma ExecTableWellFormed(t: Table, s: Statement, env: Env)
    requires OnTable(s) && WellFormed(t, Tok(env, env.tokenizer))
    requires env.tokenizer == Simple || !(s.CreateIndex? && !s.fulltext)
    ensures WellFormed(ExecTable(t, s, env).0, Tok(env, env.tokenizer))
  {
    hide Shape, Buildable, Built, SelectRows, InsertRow, UpdateRows, DeleteRows, AddIndex, AddFulltext, WellFormed,
         BuildFulltext, Core, StaleUpdate;
    WellFormedIsCore(t, Tok(env, env.tokenizer));
    WellFormedNeverStale(t, s, env);
    if ExecTable(t, s, env).1.Err? { ExecTableAtomic(t, s, env); }
    match s
    case CreateIndex(name, _, column, fulltext) =>
      if fulltext { AddFulltextSound(t, name, column, env); } else { AddIndexSound(t, name, column, env); }
    case Insert(_, targets, values) =>
      if InsertRow(t, targets, values, env).Ok? { InsertedSound(t, targets, values, env); }
    case Select(_, _, _, _, _) =>
    case Update(_, assignments, filter) => UpdateSound(t, assignments, filter, env);
    case Delete(_, filter) => DeleteSound(t, filter, env);
  }
}
