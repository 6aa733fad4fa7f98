/** Where the program does not keep a law, a concrete input that shows it. The exact conditions are next to the laws. */
module Counterexamples {
  import opened Basics
  import opened Values
  import opened Codec
  import opened Ast
  import opened Tables
  import opened TableFacts
  import opened AccessPaths
  import opened Catalogs
  import opened Engine
  import opened Invisible
  import D = Databases
  import opened Databases

  // ---------------------------------------------------------------- two tokenisers in one table

  /** Splitting at white space is configured; the simple tokeniser also splits at a hyphen. */
  predicate Hyphenated(env: Env) {
    && env.tokenizer == Whitespace
    && env.tokenize(Simple, "a-b") == ["a", "b"] && env.tokenize(Whitespace, "a-b") == ["a-b"]
  }

  function NoteColumns(): seq<Column> { [Column("id", IntegerType, true), Column("x", TextType, false)] }

  function Note(i: I64): Row { map["id" := Integer(i), "x" := Text("a-b")] }

  function NoteRows(): map<nat, Row> { map[1 := Note(1), 2 := Note(2)] }

  /** Two notes and a full-text index on their text, the index maps still to be filled. */
  function BareNotes(): Table {
    Table("t", NoteColumns(), NoteRows(), 3, Some("id"), map[], map[], map["f" := Index("x", map[])])
  }

  lemma NoteFits(i: I64)
    ensures RowFits(Note(i), NoteColumns())
  {
    var columns := NoteColumns();
    assert columns[0].name in Names(columns) && columns[1].name in Names(columns);
    assert Names(columns) == {"id", "x"};
    assert Note(i).Keys == {"id", "x"};
  }

  lemma NoteKeysDiffer()
    ensures PrimaryOk(NoteRows(), "id")
  {
    hide IndexKey, EncodeValue, DecodeValue;
    IndexKeyNamesValue(Integer(1));
    IndexKeyNamesValue(Integer(2));
  }

  lemma BareNotesBuild()
    ensures Shape(BareNotes()) && Buildable(BareNotes())
  {
    hide RowFits, PrimaryOk, Note;
    NoteFits(1);
    NoteFits(2);
    NoteKeysDiffer();
    assert PrimaryColumn(NoteColumns()) == Some("id");
  }

  /** The notes as the configured tokeniser indexes them. */
  function Notes(env: Env): Table {
    BareNotesBuild();
    Built(BareNotes(), Tok(env, env.tokenizer))
  }

  lemma NotesWellFormed(env: Env)
    ensures WellFormed(Notes(env), Tok(env, env.tokenizer))
  {
    hide Shape, Buildable, Built, BareNotes, WellFormed;
    BareNotesBuild();
    BuiltIsWellFormed(BareNotes(), Tok(env, env.tokenizer));
  }

  lemma PlainNames()
    ensures NormalizeIdentifier("id") == "id" && NormalizeIdentifier("x") == "x"
  {}

  lemma NoteColumnsFound()
    ensures FindColumn(NoteColumns(), "id") == Some(Column("id", IntegerType, true))
    ensures FindColumn(NoteColumns(), "x") == Some(Column("x", TextType, false))
  {
    hide NormalizeIdentifier;
    PlainNames();
    assert NoteColumns()[1..][0] == Column("x", TextType, false);
  }

  /** What `CREATE INDEX i ON t(x)` makes of the notes: its rebuild fills the full-text maps with the simple
      tokeniser. */
  ghost predicate IndexedNotes(t: Table, env: Env) {
    && AddIndex(Notes(env), "i", "x", env) == Ok(t) && WellFormed(t, Tok(env, Simple))
    && t.columns == NoteColumns() && t.rows == NoteRows() && t.primaryKey == Some("id")
    && "f" in t.fulltext && t.fulltext["f"].column == "x"
  }

  lemma NoIndexes(rows: map<nat, Row>)
    ensures BuildIndexes(rows, map[]) == map[]
  {}

  lemma NotesFields(env: Env)
    ensures var t := Notes(env);
            && t.name == "t" && t.columns == NoteColumns() && t.rows == NoteRows()
            && t.primaryKey == Some("id") && t.indexes == map[]
            && t.fulltext.Keys == {"f"} && t.fulltext["f"].column == "x"
  {
    hide BuildPrimary, BuildIndexes, BuildWords, Buildable, Shape, NoteColumns, NoteRows;
    BareNotesBuild();
    NoIndexes(NoteRows());
  }

  lemma AddedIndexFields(t: Table, name: string, column: string, env: Env)
    requires AddIndex(t, name, column, env).Ok?
    ensures var u := AddIndex(t, name, column, env).value;
            && u.columns == t.columns && u.rows == t.rows && u.primaryKey == t.primaryKey
            && SameDefinitions(t.fulltext, u.fulltext)
  {
    hide Buildable, BuildPrimary, BuildIndexes, BuildWords, FindColumn;
  }

  lemma IndexNotes(env: Env) returns (t: Table)
    ensures IndexedNotes(t, env)
  {
    hide Notes, WellFormed, Core, FindColumn, NoteColumns, NoteRows, AddIndex;
    NotesWellFormed(env);
    WellFormedIsCore(Notes(env), Tok(env, env.tokenizer));
    NotesFields(env);
    NoteColumnsFound();
    AddIndexSound(Notes(env), "i", "x", env);
    AddedIndexFields(Notes(env), "i", "x", env);
    t := AddIndex(Notes(env), "i", "x", env).value;
  }

  lemma IndexedNotesCore(t: Table, env: Env)
    requires IndexedNotes(t, env)
    ensures Core(t) && Sound(t, env) && t.fulltext == BuildFulltext(t.rows, t.fulltext, Tok(env, Simple))
    ensures t.columns == NoteColumns() && t.rows == NoteRows() && t.primaryKey == Some("id")
    ensures "f" in t.fulltext && t.fulltext["f"].column == "x"
  {
    hide Shape, Buildable, BuildPrimary, BuildIndexes, BuildFulltext, AddIndex, Notes, NoteColumns, NoteRows;
    WellFormedIsCore(t, Tok(env, Simple));
  }

  lemma NoteWords(env: Env)
    requires Hyphenated(env)
    ensures forall id :: id in NoteRows() ==> Words(NoteRows()[id], "x", Tok(env, Simple)) == ["a", "b"]
    ensures forall id :: id in NoteRows() ==> Words(NoteRows()[id], "x", Tok(env, env.tokenizer)) == ["a-b"]
    ensures 1 in NoteRows() && 2 in NoteRows()
  {}

  /** Maps filled by one tokeniser hold a word that another never yields. */
  lemma WordTells(rows: map<nat, Row>, column: string, one: string -> seq<string>, other: string -> seq<string>,
                  id: nat, w: string)
    requires id in rows && w in Words(rows[id], column, one)
    requires forall i :: i in rows ==> w !in Words(rows[i], column, other)
    ensures BuildWords(rows, column, one) != BuildWords(rows, column, other)
  {
    hide Words;
    assert w in BuildWords(rows, column, one) && w !in BuildWords(rows, column, other);
  }

  lemma NotesAreStale(t: Table, env: Env)
    requires Hyphenated(env) && IndexedNotes(t, env)
    ensures t.fulltext != BuildFulltext(t.rows, t.fulltext, Tok(env, env.tokenizer))
  {
    hide Words, IndexedNotes, NoteRows, NoteColumns, BuildWords, Core, Sound;
    IndexedNotesCore(t, env);
    NoteWords(env);
    assert "a" in ["a", "b"] && "a" !in ["a-b"];
    WordTells(t.rows, "x", Tok(env, Simple), Tok(env, env.tokenizer), 1, "a");
    assert t.fulltext["f"] == BuildFulltext(t.rows, t.fulltext, Tok(env, Simple))["f"];
  }

  /** Indexed MATCH and the scan part company: no row is indexed under "a-b", and both rows hold it. */
  lemma FulltextDisagrees(t: Table, env: Env)
    requires Hyphenated(env) && IndexedNotes(t, env)
    ensures MatchFulltext(t, "x", "a-b", env) != ScanIds(t.rows, Some(FullText("x", "a-b")), env)
  {
    hide Words, IndexedNotes, NoteRows, NoteColumns, BuildFulltext, Core, Sound, MatchFulltext, ScanIds, IndexOn;
    IndexedNotesCore(t, env);
    NoteWords(env);
    FulltextAgreesIff(t, "x", "a-b", env, Tok(env, Simple));
    var tokens := env.tokenize(env.tokenizer, "a-b");
    assert tokens == ["a-b"] && tokens[0] !in ["a", "b"] && 1 in t.rows;
    assert !HasWords(t.rows[1], "x", tokens, Tok(env, Simple)) &&
           HasWords(t.rows[1], "x", tokens, Tok(env, env.tokenizer));
  }

  // ---------------------------------------------------------------- an index that shows

  lemma TextFilterAccepted(env: Env)
    ensures NormalizeFilter(NoteColumns(), Some(FullText("x", "a-b")), env) == Ok(Some(FullText("x", "a-b")))
  {
    hide FindColumn, NoteColumns;
    NoteColumnsFound();
  }

  /** CREATE INDEX changes a MATCH: the notes were found before it, and are not after. */
  lemma IndexShowsInMatch(t: Table, env: Env)
    requires Hyphenated(env) && IndexedNotes(t, env)
    ensures Matching(Notes(env), Some(FullText("x", "a-b")), env) != Matching(t, Some(FullText("x", "a-b")), env)
  {
    hide Notes, WellFormed, NoteRows, NoteColumns, NormalizeFilter, Core, Sound, MatchFulltext, ScanIds, BuildFulltext,
         AddIndex, TokensAgree;
    NotesFields(env);
    NotesWellFormed(env);
    TextFilterAccepted(env);
    NotesFilledByConfigured(env);
    SameTokensAgree(Notes(env).rows, "x", "a-b", env);
    MatchTextAgreesIff(Notes(env), "x", "a-b", env, Tok(env, env.tokenizer));
    FulltextDisagrees(t, env);
  }

  lemma NotesFilledByConfigured(env: Env)
    ensures Notes(env).fulltext == BuildFulltext(Notes(env).rows, Notes(env).fulltext, Tok(env, env.tokenizer))
  {
    hide Notes, Shape, Buildable, BuildPrimary, BuildIndexes, BuildFulltext;
    NotesWellFormed(env);
  }

  /** One row storing -0.0, and no index. */
  function Zeros(): Table {
    Table("t", [Column("x", FloatType, false)], map[1 := map["x" := Float(NEGATIVE_ZERO_64)]], 2, None,
          map[], map[], map[])
  }

  lemma ZerosWellFormed(env: Env)
    ensures WellFormed(Zeros(), Tok(env, Simple)) && Sound(Zeros(), env)
  {
    var t := Zeros();
    assert t.columns[0].name in Names(t.columns);
    assert Names(t.columns) == {"x"};
    assert RowFits(t.rows[1], t.columns);
    assert Built(t, Tok(env, Simple)) == t;
  }

  lemma ZerosIndexed(env: Env)
    ensures AddIndex(Zeros(), "i", "x", env).Ok?
    ensures var u := AddIndex(Zeros(), "i", "x", env).value; Indexed(u, "x") && !Indexed(Zeros(), "x")
  {
    hide WellFormed, Sound, Core, AddIndex;
    ZerosWellFormed(env);
    SoundIsCore(Zeros(), env);
    ZeroColumn();
    AddIndexSound(Zeros(), "i", "x", env);
    AddedIndexHas(Zeros(), "i", "x", env);
  }

  lemma ZeroColumn()
    ensures FindColumn(Zeros().columns, "x") == Some(Column("x", FloatType, false))
  {
    hide NormalizeIdentifier;
    PlainNames();
  }

  lemma AddedIndexHas(t: Table, name: string, column: string, env: Env)
    requires AddIndex(t, name, column, env).Ok?
    ensures var u := AddIndex(t, name, column, env).value; name in u.indexes && u.indexes[name].column == column
  {
    hide Buildable, BuildPrimary, BuildEntries, BuildFulltext, FindColumn;
  }

  lemma ZeroFilterAccepted(env: Env)
    ensures NormalizeFilter(Zeros().columns, Some(Equals("x", Float(0))), env) == Ok(Some(Equals("x", Float(0))))
  {
    hide FindColumn, Zeros;
    ZeroColumn();
  }

  lemma ZerosSpellTwice()
    ensures !OneSpelling(Zeros().rows, "x", Float(0))
  {
    assert 1 in Zeros().rows && SameNumber(Zeros().rows[1]["x"], Float(0));
  }

  /** An indexed equality and the scan part company: the scan for 0.0 finds the row storing -0.0, the index does not. */
  lemma NegativeZeroDisagrees(env: Env)
    ensures AddIndex(Zeros(), "i", "x", env).Ok?
    ensures var t := AddIndex(Zeros(), "i", "x", env).value;
            MatchEquals(t, "x", Float(0), env) != Ok(ScanIds(t.rows, Some(Equals("x", Float(0))), env))
  {
    hide WellFormed, Sound, Core, AddIndex, Indexed, Zeros, MatchEquals, ScanIds, OneSpelling;
    ZerosWellFormed(env);
    SoundIsCore(Zeros(), env);
    ZerosIndexed(env);
    ZerosSpellTwice();
    AddIndexSound(Zeros(), "i", "x", env);
    AddedIndexFields(Zeros(), "i", "x", env);
    var t := AddIndex(Zeros(), "i", "x", env).value;
    WellFormedIsCore(t, Tok(env, Simple));
    EqualityAgreesIff(t, "x", Float(0), env);
  }

  /** CREATE INDEX changes an equality: 0.0 was found as -0.0 before it, and is not after. */
  lemma IndexShowsOnNegativeZero(env: Env)
    ensures var u := ExecTable(Zeros(), CreateIndex("i", "t", "x", false), env).0;
            Matching(u, Some(Equals("x", Float(0))), env) != Matching(Zeros(), Some(Equals("x", Float(0))), env)
  {
    hide WellFormed, Sound, Matching, NormalizeFilter, AddIndex, Indexed;
    ZerosWellFormed(env);
    ZerosIndexed(env);
    ZeroFilterAccepted(env);
    ZerosSpellTwice();
    IndexChangesLookupIff(Zeros(), CreateIndex("i", "t", "x", false), Some(Equals("x", Float(0))), env);
  }

  // ---------------------------------------------------------------- a failed UPDATE

  /** `UPDATE t SET id = 1`. */
  function UpdateIds(): Statement { Update("t", [("id", Integer(1))], None) }

  lemma UpdateAccepted(env: Env)
    ensures NormalizeAssignments(NoteColumns(), [("id", Integer(1))], env) == Ok([("id", Integer(1))])
  {
    hide FindColumn, NoteColumns;
    NoteColumnsFound();
    var a: seq<(string, Value)> := [("id", Integer(1))];
    assert a[1..] == [];
    assert NormalizeAssignments(NoteColumns(), a[1..], env) == Ok([]);
    assert ValidateValue(Column("id", IntegerType, true), Integer(1), env) == Ok(Integer(1));
    assert [("id", Integer(1))] + [] == a;
    assert NormalizeAssignments(NoteColumns(), a, env) == Ok(a);
  }

  lemma ClashNotOk(rows: map<nat, Row>, pk: string, i: nat, j: nat)
    requires i in rows && j in rows && i != j && pk in rows[i] && pk in rows[j] && rows[i][pk] == rows[j][pk]
    ensures !PrimaryOk(rows, pk)
  {
    hide IndexKey;
    assert Finite(rows[i][pk]) ==> KeyAt(rows[i], pk) == KeyAt(rows[j], pk);
  }

  /** Both notes would get the same key. */
  lemma AssignedClash(rows: map<nat, Row>, ids: seq<nat>)
    requires 1 in rows && 2 in rows && 1 in ids && 2 in ids
    ensures !PrimaryOk(AssignAll(rows, ids, [("id", Integer(1))]), "id")
  {
    hide PrimaryOk;
    var a: seq<(string, Value)> := [("id", Integer(1))];
    assert a[1..] == [];
    ClashNotOk(AssignAll(rows, ids, a), "id", 1, 2);
  }

  lemma UpdateClashes(t: Table, env: Env)
    requires IndexedNotes(t, env)
    ensures Matching(t, None, env).Ok? && NormalizeAssignments(t.columns, [("id", Integer(1))], env).Ok?
    ensures UpdateRows(t, [("id", Integer(1))], None, env).1.Err?
  {
    hide IndexedNotes, NoteColumns, Core, Sound, BuildIndexes, BuildFulltext, BuildPrimary, Ascending,
         NormalizeAssignments, AssignAll, PrimaryOk;
    IndexedNotesCore(t, env);
    UpdateAccepted(env);
    AssignedClash(t.rows, Ascending(t.rows.Keys));
  }

  /** A failed UPDATE brings the rows back but not the full-text maps. */
  lemma FailedUpdateDoesNotRestore(t: Table, env: Env)
    requires Hyphenated(env) && IndexedNotes(t, env)
    ensures var after := ExecTable(t, UpdateIds(), env);
            after.1.Err? && after.0 != t &&
            after.0 == t.(fulltext := BuildFulltext(t.rows, t.fulltext, Tok(env, env.tokenizer)))
  {
    hide IndexedNotes, NoteRows, NoteColumns, Core, Sound, UpdateRows, BuildFulltext, Matching, NormalizeAssignments;
    UpdateClashes(t, env);
    IndexedNotesCore(t, env);
    NotesAreStale(t, env);
    FailedUpdateRestores(t, [("id", Integer(1))], None, env);
    UpdateSound(t, [("id", Integer(1))], None, env);
  }

  // ---------------------------------------------------------------- a run that is not its replay

  function NotesDb(env: Env): Db { Db(map["t" := Notes(env)], None, false, "") }

  /** `CREATE INDEX i ON t(x)`, `BEGIN`, the failing `UPDATE`, `COMMIT`. */
  function StaleRun(): seq<D.Event> {
    [D.Event(CreateIndex("i", "t", "x", false), true), D.Event(Begin, true), D.Event(UpdateIds(), true),
     D.Event(Commit, true)]
  }

  lemma IndexStep(t: Table, env: Env)
    requires IndexedNotes(t, env)
    ensures Exec(map["t" := Notes(env)], CreateIndex("i", "t", "x", false), env) == (map["t" := t], Ok(Message))
  {
    hide Notes, AddIndex, WellFormed, NoteRows, NoteColumns;
    assert map["t" := Notes(env)]["t" := t] == map["t" := t];
  }

  lemma UpdateStep(t: Table, env: Env)
    requires Hyphenated(env) && IndexedNotes(t, env)
    ensures var (c, r) := Exec(map["t" := t], UpdateIds(), env); r.Err? && c != map["t" := t]
  {
    hide IndexedNotes, ExecTable;
    FailedUpdateDoesNotRestore(t, env);
    var u := ExecTable(t, UpdateIds(), env).0;
    assert map["t" := t]["t" := u]["t"] == u;
  }

  lemma FourSteps(db: Db, a: D.Event, b: D.Event, c: D.Event, d: D.Event, env: Env)
    ensures var d1 := D.Step(db, a.statement, a.ok, env);
            var d2 := D.Step(d1.0, b.statement, b.ok, env);
            var d3 := D.Step(d2.0, c.statement, c.ok, env);
            var d4 := D.Step(d3.0, d.statement, d.ok, env);
            && D.Run(db, [a, b, c, d], env) == d4.0
            && Outcomes(db, [a, b, c, d], env) == [d1.1, d2.1, d3.1, d4.1]
            && LogOf([a, b, c, d], [d1.1, d2.1, d3.1, d4.1]) ==
               Logged(Logged(Logged(Logged(Log([], None), a.statement, d1.1), b.statement, d2.1), c.statement, d3.1),
                      d.statement, d4.1)
  {
    hide D.Step, Logged;
    var run := [a, b, c, d];
    assert run[..3] == [a, b, c] && [a, b, c][..2] == [a, b] && [a, b][..1] == [a] && [a][..0] == [];
    var d1 := D.Step(db, a.statement, a.ok, env);
    var d2 := D.Step(d1.0, b.statement, b.ok, env);
    var d3 := D.Step(d2.0, c.statement, c.ok, env);
    var d4 := D.Step(d3.0, d.statement, d.ok, env);
    var rs := [d1.1, d2.1, d3.1, d4.1];
    assert D.Run(db, [a], env) == d1.0;
    assert D.Run(db, [a, b], env) == d2.0;
    assert D.Run(db, [a, b, c], env) == d3.0;
    assert Outcomes(db, [a], env) == [d1.1];
    assert Outcomes(db, [a, b], env) == [d1.1, d2.1];
    assert Outcomes(db, [a, b, c], env) == [d1.1, d2.1, d3.1];
    assert rs[..3] == [d1.1, d2.1, d3.1] && rs[..3][..2] == [d1.1, d2.1] && [d1.1, d2.1][..1] == [d1.1] &&
           [d1.1][..0] == [];
    assert LogOf([a], [d1.1]) == Logged(Log([], None), a.statement, d1.1);
    assert LogOf([a, b], [d1.1, d2.1]) == Logged(LogOf([a], [d1.1]), b.statement, d2.1);
    assert LogOf([a, b, c], [d1.1, d2.1, d3.1]) == Logged(LogOf([a, b], [d1.1, d2.1]), c.statement, d3.1);
  }

  /** The steps of such a run on any catalogs: a definition, BEGIN, an UPDATE that fails, COMMIT. */
  lemma StepsAre(c0: Catalog, c1: Catalog, c2: Catalog, create: Statement, update: Statement, e: Error, env: Env)
    requires create.CreateIndex? && update.Update?
    requires Exec(c0, create, env) == (c1, Ok(Message)) && Exec(c1, update, env) == (c2, Err(e))
    ensures D.Step(Db(c0, None, false, ""), create, true, env) == (Db(c1, None, false, ""), Ok(Message))
    ensures D.Step(Db(c1, None, false, ""), Begin, true, env) == (Db(c1, Some(c1), false, ""), Ok(Message))
    ensures D.Step(Db(c1, Some(c1), false, ""), update, true, env) == (Db(c1, Some(c2), false, ""), Err(e))
    ensures D.Step(Db(c1, Some(c2), false, ""), Commit, true, env) == (Db(c2, None, false, ""), Ok(Message))
  {
    hide Exec;
  }

  lemma LogIs(create: Statement, update: Statement, e: Error)
    requires create.CreateIndex? && update.Update?
    ensures Logged(Logged(Logged(Logged(Log([], None), create, Ok(Message)), Begin, Ok(Message)), update, Err(e)),
                   Commit, Ok(Message))
            == Log([create], None)
  {
    assert [] + [create] == [create] && [create] + [] == [create];
  }

  /** The committed catalog is not the replay of what succeeded: only CREATE INDEX did, and the refill by the failed
      UPDATE was committed with the transaction. */
  lemma StaleRunIsNotItsReplay(env: Env)
    requires Hyphenated(env)
    ensures CatalogWellFormed(NotesDb(env).catalog, env)
    ensures var log := LogOf(StaleRun(), Outcomes(NotesDb(env), StaleRun(), env));
            && log == Log([CreateIndex("i", "t", "x", false)], None)
            && D.Run(NotesDb(env), StaleRun(), env).catalog != Replay(NotesDb(env).catalog, log.committed, env)
  {
    hide IndexedNotes, Exec, Notes, D.Run, D.Step, Outcomes, LogOf, Logged, Replay, CatalogWellFormed;
    NotesCatalogWellFormed(env);
    var t := IndexNotes(env);
    IndexStep(t, env);
    UpdateStep(t, env);
    var (c0, c1) := (NotesDb(env).catalog, map["t" := t]);
    var (create, update) := (CreateIndex("i", "t", "x", false), UpdateIds());
    var (c2, r) := Exec(c1, update, env);
    StepsAre(c0, c1, c2, create, update, r.error, env);
    LogIs(create, update, r.error);
    FourSteps(NotesDb(env), D.Event(create, true), D.Event(Begin, true), D.Event(update, true), D.Event(Commit, true),
              env);
    OneReplayed(c0, create, env);
  }

  lemma OneReplayed(c: Catalog, s: Statement, env: Env)
    ensures Replay(c, [s], env) == Exec(c, s, env).0
  {
    hide Exec;
    assert [s][..0] == [];
  }

  lemma NotesCatalogWellFormed(env: Env)
    ensures CatalogWellFormed(NotesDb(env).catalog, env)
  {
    hide Notes, WellFormed, NoteColumns, NoteRows;
    NotesFields(env);
    NotesWellFormed(env);
  }
}
