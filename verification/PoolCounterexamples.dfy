/** Runs of the pool in which COMMIT fails and leaves its locks behind for good, and one in which a held row changes. */
module PoolCounterexamples {
  import opened Basics
  import opened Values
  import opened Codec
  import opened Ast
  import opened Tables
  import opened TableFacts
  import opened AccessPaths
  import opened TableMeaning
  import opened Catalogs
  import opened Engine
  import opened Counterexamples
  import opened LockKeys
  import opened Merge
  import opened Pools
  import opened PoolFacts
  import opened PoolLaws
  import opened PoolCommits
  import opened PoolHistories

  function OneColumn(): seq<Column> { [Column("x", IntegerType, false)] }

  function EmptyTable(name: string): Table { Table(name, OneColumn(), map[], 1, None, map[], map[], map[]) }

  /** `CREATE TABLE a (x INTEGER)` and `CREATE TABLE "a:b" (x INTEGER)`. */
  function ColonCatalog(): Catalog { map["a" := EmptyTable("a"), "a:b" := EmptyTable("a:b")] }

  /** `INSERT INTO "a:b" VALUES (1)`. */
  function ColonInsert(): Statement { Insert("a:b", None, [Integer(1)]) }

  lemma EmptyTableSound(name: string, env: Env)
    ensures NewTable(name, OneColumn()) == Ok(EmptyTable(name)) && Sound(EmptyTable(name), env)
  {
    assert NewTable(name, OneColumn()) == Ok(EmptyTable(name));
    hide WellFormed;
    NewTableWellFormed(name, OneColumn(), Tok(env, Simple));
  }

  lemma ColonCatalogSound(env: Env)
    ensures CatalogSound(ColonCatalog(), env)
  {
    hide Sound;
    EmptyTableSound("a", env);
    EmptyTableSound("a:b", env);
  }

  /** With nothing locked, a staged INSERT locks the row it reserves. */
  lemma InsertLocks(sh: Shared, tx: Tx, s: Statement, env: Env)
    requires s.Insert? && s.table in sh.catalog && s.table in tx.staged && sh.locks == map[]
    requires InsertKey(tx.staged[s.table], s).Ok?
    ensures var st := Stage(sh, tx, s, env);
            && st.ok && RowKey(s.table, sh.catalog[s.table].nextRowId) in st.tx.locked
            && st.tx.staged.Keys == tx.staged.Keys && st.tx.id == tx.id
  {
    hide RowKey, InsertKey;
    var key := InsertKey(tx.staged[s.table], s).value;
    assert [key][1..] == [];
    assert LockAll(sh.locks[key := tx.id], tx.locked + {key}, tx.id, [key][1..]).ok;
  }

  function Prepare(): seq<Event> { [Connect(0), Act(0, DoBegin), Act(0, DoLock(ColonInsert())), Act(0, DoExecute)] }

  lemma FourEvents(p: Pool, a: Event, b: Event, c: Event, d: Event, env: Env)
    ensures Run(p, [a, b, c, d], env) == Step(Step(Step(Step(p, a, env), b, env), c, env), d, env)
  {
    hide Step;
    var run := [a, b, c, d];
    assert run[..3] == [a, b, c] && [a, b, c][..2] == [a, b] && [a, b][..1] == [a] && [a][..0] == [];
    assert Run(p, [a], env) == Step(p, a, env);
    assert Run(p, [a, b], env) == Step(Step(p, a, env), b, env);
    assert Run(p, [a, b, c], env) == Step(Step(Step(p, a, env), b, env), c, env);
  }

  lemma BegunPool(c: Catalog, env: Env)
    ensures var p := Step(Step(Start(c, false, ""), Connect(0), env), Act(0, DoBegin), env);
            p == Pool(Shared(c, map[], false, ""), 2, map[0 := Conn(Some(Tx(1, c, {}, c)), Nothing)], [])
  {
    assert [] + IssuedBy(Start(c, false, "").shared, Start(c, false, "").shared, DoBegin) == [];
  }

  /** The transaction before its COMMIT. */
  lemma PreparedPool(env: Env)
    ensures var p := Run(Start(ColonCatalog(), false, ""), Prepare(), env);
            && Active(p, 0) && p.conns[0].pending.Nothing?
            && RowKey("a:b", 1) in p.conns[0].tx.value.locked && "a" in p.conns[0].tx.value.staged
  {
    hide RowKey, ExecTable, Stage;
    var (c, s) := (ColonCatalog(), ColonInsert());
    var sh, tx := Shared(c, map[], false, ""), Tx(1, c, {}, c);
    FourEvents(Start(c, false, ""), Connect(0), Act(0, DoBegin), Act(0, DoLock(s)), Act(0, DoExecute), env);
    BegunPool(c, env);
    InsertLocks(sh, tx, s, env);
    assert "a" in c;
  }

  /** The colon makes the name "a" ambiguous: COMMIT fails although the file could be written, nothing is committed,
      and the row key stays in the lock table through every later run, which refuses every later definition. */
  lemma ColonNamesBreakCommit(events: seq<Event>, env: Env)
    ensures var p := Run(Start(ColonCatalog(), false, ""), Prepare(), env);
            var q := Run(Step(p, Act(0, DoCommit(true)), env), events, env);
            && Reachable(p, env) && Active(p, 0)
            && CommitTx(p.shared, p.conns[0].tx.value, true, env) == (p.shared, Err(Execution))
            && Dead(q, RowKey("a:b", 1))
            && forall d, s :: d in q.conns && Enabled(q.conns[d], DoDdlCheck(s)) ==>
                 LocalStep(q.shared, q.nextTx, q.conns[d], DoDdlCheck(s), env) ==
                 Local(q.shared, q.nextTx, q.conns[d], Some(Err(Execution)))
  {
    hide RowKey, Run, Step, LocalStep, CatalogSound, ColonCatalog, Dead, MergeCatalogs, Release, EncodeCatalog;
    var p := Run(Start(ColonCatalog(), false, ""), Prepare(), env);
    ColonCatalogSound(env);
    assert Reachable(p, env);
    hide Reachable;
    PreparedPool(env);
    var tx := p.conns[0].tx.value;
    assert Ambiguous(tx, "a") by { assert "a" + ":" <= "a:b"; }
    hide Ambiguous;
    assert !Overlayable(p.shared, tx);
    hide Overlayable;
    CommitSucceedsIff(p, 0, true, env);
    CommitReleasesIff(p, 0, true, env);
    FailedMergeBlocksForever(p, 0, true, events, RowKey("a:b", 1), env);
    MergeErrorIs(p.shared, tx, env);
  }

  lemma MergeErrorIs(sh: Shared, tx: Tx, env: Env)
    requires CommitTx(sh, tx, true, env).1.Err?
    ensures CommitTx(sh, tx, true, env).1 == Err(Execution)
  {
    hide MergeTable, EncodeCatalog, Release;
  }

  // ---------------------------------------------------------------- two notes, and statements that give one a new key

  /** The two notes, indexed with the simple tokeniser. */
  function KeyedNotes(env: Env): Table {
    BareNotesBuild();
    Built(BareNotes(), Tok(env, Simple))
  }

  /** `UPDATE t SET id = k WHERE id = i`. */
  function SetKey(i: I64, k: I64): Statement { Update("t", [("id", Integer(k))], Some(Equals("id", Integer(i)))) }

  function Rekeyed(i: nat, k: I64): map<nat, Row>
    requires i == 1 || i == 2
  {
    NoteRows()[i := NoteRows()[i]["id" := Integer(k)]]
  }

  /** A sound table of the two notes. */
  ghost predicate NotesTable(t: Table, env: Env) {
    Sound(t, env) && t.columns == NoteColumns() && t.rows == NoteRows() && t.primaryKey == Some("id")
  }

  lemma NoteIds()
    ensures NoteRows().Keys == {1, 2}
    ensures forall i :: i in NoteRows() ==> "id" in NoteRows()[i] && NoteRows()[i]["id"] == Integer(i)
  {}

  lemma KeyedNotesFacts(env: Env)
    ensures var t := KeyedNotes(env); t.name == "t" && t.nextRowId == 3 && NotesTable(t, env)
  {
    BareNotesBuild();
    BuiltIsWellFormed(BareNotes(), Tok(env, Simple));
    hide WellFormed, Buildable, BuildPrimary, BuildIndexes, BuildFulltext, NoteColumns, NoteRows;
  }

  lemma KeyFilterAccepted(i: I64, env: Env)
    ensures NormalizeFilter(NoteColumns(), Some(Equals("id", Integer(i))), env) == Ok(Some(Equals("id", Integer(i))))
    ensures NormalizeAssignments(NoteColumns(), [("id", Integer(i))], env) == Ok([("id", Integer(i))])
  {
    hide FindColumn, NoteColumns;
    NoteColumnsFound();
    var a: seq<(string, Value)> := [("id", Integer(i))];
    assert a[1..] == [];
    assert NormalizeAssignments(NoteColumns(), a[1..], env) == Ok([]);
    assert [("id", Integer(i))] + [] == a;
    assert NormalizeAssignments(NoteColumns(), a, env) == Ok(a);
  }

  lemma KeyFinds(i: nat)
    requires i == 1 || i == 2
    ensures ExactIds(NoteRows(), "id", Integer(i)) == {i}
  {}

  lemma OneAscending(i: nat)
    ensures Ascending({i}) == [i]
  {
    AscendingOf([i], {i});
  }

  lemma SetKeyMatches(t: Table, i: nat, env: Env)
    requires NotesTable(t, env) && (i == 1 || i == 2)
    ensures Matching(t, Some(Equals("id", Integer(i))), env) == Ok([i])
  {
    hide Sound, Matching, NoteRows, NoteColumns, NormalizeFilter, Ascending, ExactIds, EqualIds;
    NoteIds();
    KeyFilterAccepted(i, env);
    KeyFinds(i);
    OneAscending(i);
    MatchingFinds(t, Some(Equals("id", Integer(i))), env);
  }

  lemma OneAssigned(i: nat, k: I64)
    requires i == 1 || i == 2
    ensures AssignAll(NoteRows(), [i], [("id", Integer(k))]) == Rekeyed(i, k)
  {
    var a: seq<(string, Value)> := [("id", Integer(k))];
    assert a[1..] == [];
    assert Assign(NoteRows()[i], a) == NoteRows()[i]["id" := Integer(k)];
  }

  lemma RekeyedIds(i: nat)
    requires i == 1 || i == 2
    ensures var rows := Rekeyed(i, 3);
            && rows.Keys == {1, 2} && "id" in rows[i] && rows[i]["id"] == Integer(3)
            && "id" in rows[3 - i] && rows[3 - i]["id"] == Integer(3 - i)
  {}

  lemma NewKeyFits(i: nat)
    requires i == 1 || i == 2
    ensures PrimaryOk(Rekeyed(i, 3), "id")
  {
    hide IndexKey, EncodeValue, DecodeValue, Rekeyed;
    var rows := Rekeyed(i, 3);
    RekeyedIds(i);
    IndexKeyNamesValue(Integer(3));
    IndexKeyNamesValue(Integer(3 - i));
  }

  lemma UpdatedRows(t: Table, s: Statement, env: Env)
    requires s.Update? && Matching(t, s.filter, env).Ok? && NormalizeAssignments(t.columns, s.assignments, env).Ok?
    requires ExecTable(t, s, env).1.Ok?
    ensures ExecTable(t, s, env).0.rows ==
            AssignAll(t.rows, Matching(t, s.filter, env).value,
                      NormalizeAssignments(t.columns, s.assignments, env).value)
  {
    hide Matching, NormalizeAssignments, AssignAll, Rebuild;
    var (ids, norm) := (Matching(t, s.filter, env).value, NormalizeAssignments(t.columns, s.assignments, env).value);
    RebuiltRows(t, AssignAll(t.rows, ids, norm), Tok(env, env.tokenizer));
  }

  /** Giving one note the free key 3 succeeds and touches that note alone. */
  lemma SetKeyRuns(t: Table, i: nat, env: Env)
    requires NotesTable(t, env) && (i == 1 || i == 2)
    ensures var s := SetKey(i, 3);
            && Matching(t, s.filter, env) == Ok([i])
            && NormalizeAssignments(t.columns, s.assignments, env) == Ok(s.assignments)
            && !KeyClash(t, s, env) && ExecTable(t, s, env).1.Ok? && ExecTable(t, s, env).0.rows == Rekeyed(i, 3)
  {
    hide Sound, Core, Matching, NormalizeAssignments, NoteRows, NoteColumns, AssignAll, PrimaryOk, Rekeyed, ExecTable;
    var s := SetKey(i, 3);
    SetKeyMatches(t, i, env);
    KeyFilterAccepted(3, env);
    OneAssigned(i, 3);
    NewKeyFits(i);
    SoundIsCore(t, env);
    UpdateErrsIff(t, s, env);
    UpdatedRows(t, s, env);
  }

  function KeyedCatalog(env: Env): Catalog { map["t" := KeyedNotes(env)] }

  lemma KeyedCatalogSound(env: Env)
    ensures CatalogSound(KeyedCatalog(env), env)
  {
    hide KeyedNotes, Sound, WellFormed, NoteRows, NoteColumns;
    KeyedNotesFacts(env);
  }

  // ---------------------------------------------------------------- a held row that an autocommitted UPDATE changes

  /** With its row free, a staged UPDATE of one row locks that row and no more. */
  lemma UpdateLocks(sh: Shared, tx: Tx, s: Statement, id: nat, env: Env)
    requires s.Update? && s.table in tx.staged && Matching(tx.staged[s.table], s.filter, env) == Ok([id])
    requires RowKey(s.table, id) !in sh.locks
    ensures var key := RowKey(s.table, id);
            Stage(sh, tx, s, env) ==
            Staging(sh.(locks := sh.locks[key := tx.id]), tx.(locked := tx.locked + {key}), true)
  {
    hide RowKey, Matching;
    var key := RowKey(s.table, id);
    assert RowKeys(s.table, [id]) == [key];
    assert [key][1..] == [];
    assert LockAll(sh.locks[key := tx.id], tx.locked + {key}, tx.id, [key][1..]) ==
           Locking(sh.locks[key := tx.id], tx.locked + {key}, true);
  }

  lemma ReachableStep(p: Pool, e: Event, env: Env)
    requires Reachable(p, env)
    ensures Reachable(Step(p, e, env), env)
  {
    hide CatalogSound, Step;
    var c: Catalog, path: bool, disk: string, events: seq<Event> :|
      CatalogSound(c, env) && p == Run(Start(c, path, disk), events, env);
    var more := events + [e];
    assert more[..|events|] == events;
    assert Run(Start(c, path, disk), more, env) == Step(p, e, env);
  }

  lemma StartReachable(c: Catalog, env: Env)
    requires CatalogSound(c, env)
    ensures Reachable(Start(c, false, ""), env)
  {
    hide CatalogSound;
    assert Start(c, false, "") == Run(Start(c, false, ""), [], env);
  }

  /** The pool after BEGIN on two connections. */
  function TwoBegun(c: Catalog): Pool {
    Pool(Shared(c, map[], false, ""), 3,
         map[0 := Conn(Some(Tx(1, c, {}, c)), Nothing), 1 := Conn(Some(Tx(2, c, {}, c)), Nothing)], [])
  }

  /** The pool after one BEGIN, with a second connection idle. */
  function OneBegun(c: Catalog): Pool {
    Pool(Shared(c, map[], false, ""), 2, map[0 := Conn(Some(Tx(1, c, {}, c)), Nothing), 1 := Conn(None, Nothing)], [])
  }

  lemma BegunReachable(c: Catalog, env: Env)
    requires CatalogSound(c, env)
    ensures Reachable(OneBegun(c), env) && Reachable(TwoBegun(c), env)
  {
    hide CatalogSound, Reachable;
    var p0 := Start(c, false, "");
    StartReachable(c, env);
    ReachableStep(p0, Connect(0), env);
    var p1 := Step(p0, Connect(0), env);
    ReachableStep(p1, Connect(1), env);
    var p2 := Step(p1, Connect(1), env);
    ReachableStep(p2, Act(0, DoBegin), env);
    var p3 := Step(p2, Act(0, DoBegin), env);
    assert [] + IssuedBy(p2.shared, p3.shared, DoBegin) == [];
    assert p3 == OneBegun(c);
    ReachableStep(p3, Act(1, DoBegin), env);
    assert Step(p3, Act(1, DoBegin), env) == TwoBegun(c);
  }

  /** The pool after a connection has locked one row and updated it on its staged catalog. */
  function AfterUpdate(p: Pool, c: nat, s: Statement, id: nat, env: Env): Pool
    requires Active(p, c) && s.Update?
  {
    var (tx, key) := (p.conns[c].tx.value, RowKey(s.table, id));
    var after := tx.(staged := Exec(tx.staged, s, env).0, locked := tx.locked + {key});
    p.(shared := p.shared.(locks := p.shared.locks[key := tx.id]), conns := p.conns[c := Conn(Some(after), Nothing)])
  }

  /** A connection's two steps for a staged UPDATE of one free row. */
  lemma StagedUpdate(p: Pool, c: nat, s: Statement, id: nat, env: Env)
    requires Active(p, c) && p.conns[c].pending.Nothing? && s.Update? && s.table in p.conns[c].tx.value.staged
    requires Matching(p.conns[c].tx.value.staged[s.table], s.filter, env) == Ok([id])
    requires RowKey(s.table, id) !in p.shared.locks
    ensures Step(Step(p, Act(c, DoLock(s)), env), Act(c, DoExecute), env) == AfterUpdate(p, c, s, id, env)
  {
    hide RowKey, Matching, Exec, Stage;
    UpdateLocks(p.shared, p.conns[c].tx.value, s, id, env);
    assert p.issued + [] == p.issued;
    var q := Step(p, Act(c, DoLock(s)), env);
    assert q.conns[c].pending == Execute(s);
    assert IssuedBy(p.shared, q.shared, DoLock(s)) == [];
  }

  lemma StagedReachable(p: Pool, c: nat, s: Statement, id: nat, env: Env)
    requires Reachable(p, env)
    requires Active(p, c) && p.conns[c].pending.Nothing? && s.Update? && s.table in p.conns[c].tx.value.staged
    requires Matching(p.conns[c].tx.value.staged[s.table], s.filter, env) == Ok([id])
    requires RowKey(s.table, id) !in p.shared.locks
    ensures Reachable(AfterUpdate(p, c, s, id, env), env)
  {
    hide RowKey, Reachable, Step, Exec, Matching;
    StagedUpdate(p, c, s, id, env);
    ReachableStep(p, Act(c, DoLock(s)), env);
    ReachableStep(Step(p, Act(c, DoLock(s)), env), Act(c, DoExecute), env);
  }

  /** A transaction has updated row 1 and holds its key; another connection then updates that row outside any
      transaction, and the committed row changes under the lock. */
  lemma AutocommitOverrunsHeldRow(env: Env) returns (p: Pool)
    ensures Reachable(p, env) && HoldsKey(p, 0, "t", 1)
    ensures Overruns(p, Act(1, DoAuto(SetKey(1, 3), true)), "t", 1, env)
    ensures RowAt(Step(p, Act(1, DoAuto(SetKey(1, 3), true)), env).shared.catalog, "t", 1) !=
            RowAt(p.shared.catalog, "t", 1)
  {
    hide RowKey, Reachable, CatalogSound, Step, KeyedNotes, Exec, Matching, NormalizeAssignments, NoteRows, NoteColumns,
         KeyClash, Sound, WellFormed, PoolOk, ExecTable, Rekeyed;
    var c := KeyedCatalog(env);
    KeyedNotesFacts(env);
    KeyedCatalogSound(env);
    BegunReachable(c, env);
    SetKeyRuns(c["t"], 1, env);
    StagedReachable(OneBegun(c), 0, SetKey(1, 3), 1, env);
    p := AfterUpdate(OneBegun(c), 0, SetKey(1, 3), 1, env);
    ReachableOk(p, env);
    assert p.shared.catalog == c && p.conns[1] == Conn(None, Nothing);
    NoteOverwritten(c["t"], env);
    HeldStepIff(p, 0, Act(1, DoAuto(SetKey(1, 3), true)), env, "t", 1);
  }

  lemma NoteOverwritten(t: Table, env: Env)
    requires NotesTable(t, env)
    ensures Overwrites(t, SetKey(1, 3), 1, env)
  {
    hide Sound, Matching, NormalizeAssignments, KeyClash, NoteColumns, NoteRows, ExecTable, Assign;
    NoteIds();
    SetKeyRuns(t, 1, env);
    KeyAssigned(t.rows[1]);
    assert 1 in [1];
  }

  lemma KeyAssigned(row: Row)
    requires "id" in row && row["id"] == Integer(1)
    ensures Assign(row, [("id", Integer(3))]) != row
  {
    var a: seq<(string, Value)> := [("id", Integer(3))];
    assert a[1..] == [];
    assert Assign(row, a)["id"] == Integer(3);
  }

  // ---------------------------------------------------------------- two transactions that give two rows one key

  /** A transaction that has given one note the key 3 and holds that note's key alone. */
  ghost predicate Rekeys(tx: Tx, i: nat)
    requires i == 1 || i == 2
  {
    && tx.locked == {RowKey("t", i)} && tx.staged.Keys == {"t"} && tx.staged["t"].rows == Rekeyed(i, 3)
  }

  /** Two transactions, each of which has given a different note the key 3. */
  lemma BothRekeyed(env: Env) returns (p: Pool)
    ensures Reachable(p, env) && p.shared.catalog == KeyedCatalog(env) && !p.shared.path
    ensures Active(p, 0) && p.conns[0].pending.Nothing? && Rekeys(p.conns[0].tx.value, 1)
    ensures Active(p, 1) && p.conns[1].pending.Nothing? && Rekeys(p.conns[1].tx.value, 2)
  {
    hide RowKey, Reachable, CatalogSound, Step, KeyedNotes, Exec, Matching, NormalizeAssignments, NotesTable, KeyClash,
         Rekeyed, WellFormed, ExecTable;
    var c := KeyedCatalog(env);
    KeyedNotesFacts(env);
    KeyedCatalogSound(env);
    BegunReachable(c, env);
    SetKeyRuns(c["t"], 1, env);
    SetKeyRuns(c["t"], 2, env);
    if RowKey("t", 1) == RowKey("t", 2) { RowKeyInjective("t", 1, "t", 2); }
    StagedReachable(TwoBegun(c), 0, SetKey(1, 3), 1, env);
    var q := AfterUpdate(TwoBegun(c), 0, SetKey(1, 3), 1, env);
    StagedReachable(q, 1, SetKey(2, 3), 2, env);
    p := AfterUpdate(q, 1, SetKey(2, 3), 2, env);
    StagedRekeys(c, 1, env);
    StagedRekeys(c, 2, env);
  }

  lemma StagedRekeys(c: Catalog, i: nat, env: Env)
    requires i == 1 || i == 2
    requires c.Keys == {"t"} && NotesTable(c["t"], env)
    ensures var staged := Exec(c, SetKey(i, 3), env).0; staged.Keys == {"t"} && staged["t"].rows == Rekeyed(i, 3)
  {
    hide ExecTable, Rekeyed, NotesTable, Matching, NormalizeAssignments, KeyClash;
    SetKeyRuns(c["t"], i, env);
  }

  lemma OneLocked(tx: Tx, i: nat)
    requires tx.locked == {RowKey("t", i)}
    ensures LockedIds("t", tx.locked) == {i} && !Ambiguous(tx, "t")
  {
    hide RowKey, ReadKey;
    ReadOfRowKey("t", "t", i);
    forall t: string, id: nat | RowKey(t, id) in tx.locked ensures t == "t" { RowKeyInjective(t, id, "t", i); }
  }

  /** Alone, either of the two transactions can commit. */
  lemma RekeyOverlayable(sh: Shared, tx: Tx, i: nat, env: Env)
    requires (i == 1 || i == 2) && Rekeys(tx, i)
    requires sh.catalog == KeyedCatalog(env)
    ensures Overlayable(sh, tx) && CommittedRows(sh.catalog, tx, "t") == Rekeyed(i, 3)
  {
    hide RowKey, LockedIds, PrimaryOk, KeyedNotes, Ambiguous, Sound;
    KeyedNotesFacts(env);
    OneLocked(tx, i);
    NewKeyFits(i);
    assert Overlay(NoteRows(), Rekeyed(i, 3), {i}) == Rekeyed(i, 3);
  }

  /** Over the first one's rows the second one's row is a second row with key 3. */
  lemma RekeysClash(sh: Shared, tx: Tx)
    requires Rekeys(tx, 2) && "t" in sh.catalog
    requires sh.catalog["t"].rows == Rekeyed(1, 3) && sh.catalog["t"].primaryKey == Some("id")
    ensures !Overlayable(sh, tx)
  {
    hide RowKey, LockedIds, Ambiguous, IndexKey;
    OneLocked(tx, 2);
    var rows := CommittedRows(sh.catalog, tx, "t");
    assert rows[1]["id"] == Integer(3) && rows[2]["id"] == Integer(3);
    assert KeyAt(rows[1], "id") == KeyAt(rows[2], "id");
  }

  lemma CommittedKey(sh: Shared, nextTx: nat, tx: Tx, env: Env)
    requires TxOk(sh, nextTx, tx, env) && CommitTx(sh, tx, true, env).1.Ok?
    requires "t" in sh.catalog && sh.catalog["t"].primaryKey == Some("id") &&
             CommittedRows(sh.catalog, tx, "t") == Rekeyed(1, 3)
    ensures var after := CommitTx(sh, tx, true, env).0.catalog;
            "t" in after && after["t"].rows == Rekeyed(1, 3) && after["t"].primaryKey == Some("id")
  {
    hide MergeCatalogs, EncodeCatalog, CommittedRows, TxOk, Release, Built, Buildable, Rekeyed;
    MergedTables(sh, nextTx, tx, env);
  }

  /** The state after the first COMMIT. */
  lemma FirstCommit(p: Pool, env: Env)
    requires Reachable(p, env) && p.shared.catalog == KeyedCatalog(env) && !p.shared.path
    requires Active(p, 0) && p.conns[0].pending.Nothing? && Rekeys(p.conns[0].tx.value, 1) && Active(p, 1)
    ensures var q := Step(p, Act(0, DoCommit(true)), env);
            && CommitTx(p.shared, p.conns[0].tx.value, true, env).1.Ok?
            && Reachable(q, env) && 1 in q.conns && q.conns[1] == p.conns[1] && "t" in q.shared.catalog
            && q.shared.catalog["t"].rows == Rekeyed(1, 3) && q.shared.catalog["t"].primaryKey == Some("id")
  {
    hide Rekeys, Reachable, CommitTx, Overlayable, CommittedRows, TxOk, SharedOk, PoolOk, KeyedNotes, Rekeyed, Sound;
    var tx := p.conns[0].tx.value;
    KeyedNotesFacts(env);
    RekeyOverlayable(p.shared, tx, 1, env);
    CommitSucceedsIff(p, 0, true, env);
    ReachableOk(p, env);
    ActiveOk(p, 0, env);
    CommittedKey(p.shared, p.nextTx, tx, env);
    ReachableStep(p, Act(0, DoCommit(true)), env);
  }

  /** Two transactions give two different rows one new key. Either could commit alone; once the first has, the COMMIT of
      the second fails although the file could be written, nothing more is committed, and its row key stays in the lock
      table through every later run, which refuses every later definition. */
  lemma KeyClashBreaksCommit(events: seq<Event>, env: Env) returns (p: Pool)
    ensures Reachable(p, env) && HoldsKey(p, 0, "t", 1) && HoldsKey(p, 1, "t", 2)
    ensures CommitTx(p.shared, p.conns[0].tx.value, true, env).1.Ok? &&
            CommitTx(p.shared, p.conns[1].tx.value, true, env).1.Ok?
    ensures var q := Step(p, Act(0, DoCommit(true)), env);
            var r := Run(Step(q, Act(1, DoCommit(true)), env), events, env);
            && Active(q, 1) && CommitTx(q.shared, q.conns[1].tx.value, true, env) == (q.shared, Err(Execution))
            && Dead(r, RowKey("t", 2))
            && forall d, s :: d in r.conns && Enabled(r.conns[d], DoDdlCheck(s)) ==>
                 LocalStep(r.shared, r.nextTx, r.conns[d], DoDdlCheck(s), env) ==
                 Local(r.shared, r.nextTx, r.conns[d], Some(Err(Execution)))
  {
    hide RowKey, Run, Step, LocalStep, KeyedCatalog, Dead, Reachable, Overlayable, CommitTx, CommittedRows, Rekeyed;
    p := BothRekeyed(env);
    var q := Step(p, Act(0, DoCommit(true)), env);
    RekeyOverlayable(p.shared, p.conns[1].tx.value, 2, env);
    CommitSucceedsIff(p, 1, true, env);
    FirstCommit(p, env);
    var tx := q.conns[1].tx.value;
    RekeysClash(q.shared, tx);
    CommitSucceedsIff(q, 1, true, env);
    CommitReleasesIff(q, 1, true, env);
    MergeErrorIs(q.shared, tx, env);
    FailedMergeBlocksForever(q, 1, true, events, RowKey("t", 2), env);
  }
}
