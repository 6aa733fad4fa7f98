/** The single-connection engine (`engine.rs`): autocommit, BEGIN, COMMIT, ROLLBACK and persistence, with
    persistence that may fail at any call. */
module Databases {
  import opened Basics
  import opened Ast
  import opened Tables
  import opened TableFacts
  import opened Selects
  import opened Catalogs
  import opened CatalogRoundTrip
  import opened Engine
  import opened TableObjects

  /** `disk` is the text of the database file, empty when there is no file or nothing in it. */
  datatype Db = Db(catalog: Catalog, transaction: Option<Catalog>, path: bool, disk: string) {
    function Active(): Catalog { if transaction.Some? then transaction.value else catalog }

    function WithActive(c: Catalog): Db {
      if transaction.Some? then this.(transaction := Some(c)) else this.(catalog := c)
    }

    /** The file once the catalog has been written, if there is a file. */
    function Persisted(): Db { if path then this.(disk := EncodeCatalog(catalog)) else this }
  }

  function ExplainOutcome(c: Catalog, s: Statement, env: Env): Outcome {
    if !s.Select? || s.table !in c then Err(Execution) else
      match Matching(c[s.table], s.filter, env)
      case Err(e) => Err(e)
      case Ok(_) => Ok(Message)
  }

  /** `execute_parsed`: one statement, with `ok` saying whether writing the file would succeed. */
  function Step(db: Db, s: Statement, ok: bool, env: Env): (Db, Outcome) {
    match s
    case Begin =>
      if db.transaction.Some? then (db, Err(Execution))
      else (db.(transaction := Some(db.catalog)), Ok(Message))
    case Commit =>
      if db.transaction.None? then (db, Err(Execution))
      else if !CanWrite(db.path, ok) then (db, Err(Io))
      else (db.(catalog := db.transaction.value, transaction := None).Persisted(), Ok(Message))
    case Rollback =>
      if db.transaction.None? then (db, Err(Execution))
      else (db.(transaction := None), Ok(Message))
    case Explain(inner) => (db, ExplainOutcome(db.Active(), inner, env))
    case _ =>
      var (c, r) := Exec(db.Active(), s, env);
      if MutatesCatalog(s) && db.transaction.None? then
        if r.Err? then (db, r)
        else if !CanWrite(db.path, ok) then (db, Err(Io))
        else (db.(catalog := c).Persisted(), r)
      else (db.WithActive(c), r)
  }

  // ---------------------------------------------------------------- runs

  datatype Event = Event(statement: Statement, ok: bool)

  function Run(db: Db, events: seq<Event>, env: Env): Db {
    if events == [] then db else
      var last := events[|events| - 1];
      Step(Run(db, events[..|events| - 1], env), last.statement, last.ok, env).0
  }

  function Outcomes(db: Db, events: seq<Event>, env: Env): (r: seq<Outcome>)
    ensures |r| == |events|
  {
    if events == [] then [] else
      var last := events[|events| - 1];
      var before := events[..|events| - 1];
      Outcomes(db, before, env) + [Step(Run(db, before, env), last.statement, last.ok, env).1]
  }

  /** What a client knows it has changed: the statements that took effect for good, and those of the open
      transaction. Built from the statements sent and the outcomes received, never from a catalog. */
  datatype Log = Log(committed: seq<Statement>, open: Option<seq<Statement>>)

  function Logged(log: Log, s: Statement, r: Outcome): Log {
    if r.Err? then log else
      match s
      case Begin => log.(open := Some([]))
      case Commit => Log(log.committed + (if log.open.Some? then log.open.value else []), None)
      case Rollback => log.(open := None)
      case Explain(_) => log
      case _ =>
        if log.open.Some? then log.(open := Some(log.open.value + [s]))
        else log.(committed := log.committed + [s])
  }

  function LogOf(events: seq<Event>, outcomes: seq<Outcome>): Log
    requires |events| == |outcomes|
  {
    if events == [] then Log([], None) else
      var n := |events| - 1;
      Logged(LogOf(events[..n], outcomes[..n]), events[n].statement, outcomes[n])
  }

  /** The catalog after executing the statements one by one, with no transactions and no failures. */
  function Replay(c: Catalog, log: seq<Statement>, env: Env): Catalog
    decreases log
  {
    if log == [] then c else Exec(Replay(c, log[..|log| - 1], env), log[|log| - 1], env).0
  }

  lemma ReplayAppend(c: Catalog, log: seq<Statement>, s: Statement, env: Env)
    ensures Replay(c, log + [s], env) == Exec(Replay(c, log, env), s, env).0
  {
    hide Exec;
    assert (log + [s])[..|log|] == log;
  }

  // ---------------------------------------------------------------- invariants

  ghost predicate DbSound(db: Db, env: Env) {
    CatalogSound(db.catalog, env) && (db.transaction.Some? ==> CatalogSound(db.transaction.value, env))
  }

  ghost predicate DbWellFormed(db: Db, env: Env) {
    CatalogWellFormed(db.catalog, env) && (db.transaction.Some? ==> CatalogWellFormed(db.transaction.value, env))
  }

  /** A secondary index is always filled with the simple tokeniser, and the table's full-text maps with it. */
  predicate KeepsTokeniser(s: Statement, env: Env) {
    env.tokenizer == Simple || !(s.CreateIndex? && !s.fulltext)
  }

  lemma StepSound(db: Db, s: Statement, ok: bool, env: Env)
    requires DbSound(db, env)
    ensures DbSound(Step(db, s, ok, env).0, env)
  {
    hide Exec, CatalogSound, EncodeCatalog, ExplainOutcome;
    ExecSound(db.Active(), s, env);
  }

  lemma StepWellFormed(db: Db, s: Statement, ok: bool, env: Env)
    requires DbWellFormed(db, env) && KeepsTokeniser(s, env)
    ensures DbWellFormed(Step(db, s, ok, env).0, env)
  {
    hide Exec, CatalogWellFormed, EncodeCatalog, ExplainOutcome;
    ExecWellFormed(db.Active(), s, env);
  }

  /** A stale UPDATE inside a transaction. */
  predicate Stale(db: Db, s: Statement, env: Env) {
    db.transaction.Some? && StaleIn(db.transaction.value, s, env)
  }

  /** Whatever the statement, a failure leaves catalog, open transaction and file exactly as they were, if and only if
      it is not a stale UPDATE inside a transaction. In particular a COMMIT that cannot be written keeps the
      transaction. */
  lemma FailureChangesNothing(db: Db, s: Statement, ok: bool, env: Env)
    requires DbSound(db, env) && Step(db, s, ok, env).1.Err?
    ensures Step(db, s, ok, env).0 == db <==> !Stale(db, s, env)
  {
    hide Exec, CatalogSound, EncodeCatalog, ExplainOutcome, StaleUpdate;
    if Exec(db.Active(), s, env).1.Err? { ExecAtomic(db.Active(), s, env); }
    if !MutatesCatalog(s) { ReadersChangeNothing(db.Active(), s, env); }
  }

  lemma WellFormedIsFresh(db: Db, s: Statement, env: Env)
    requires DbWellFormed(db, env)
    ensures !Stale(db, s, env)
  {
    hide WellFormed, StaleUpdate;
    if db.transaction.Some? && s.Update? && s.table in db.transaction.value {
      WellFormedNeverStale(db.transaction.value[s.table], s, env);
    }
  }

  // ---------------------------------------------------------------- replay

  ghost predicate Tracks(db: Db, log: Log, start: Catalog, env: Env) {
    && db.catalog == Replay(start, log.committed, env)
    && (db.transaction.Some? <==> log.open.Some?)
    && (log.open.Some? ==> db.transaction.value == Replay(start, log.committed + log.open.value, env))
  }

  lemma StepTracks(db: Db, log: Log, start: Catalog, s: Statement, ok: bool, env: Env)
    requires DbSound(db, env) && Tracks(db, log, start, env)
    requires Step(db, s, ok, env).1.Err? ==> !Stale(db, s, env)
    ensures Tracks(Step(db, s, ok, env).0, Logged(log, s, Step(db, s, ok, env).1), start, env)
  {
    hide Exec, CatalogSound, EncodeCatalog, ExplainOutcome, Replay, Stale;
    if Step(db, s, ok, env).1.Err? {
      FailureChangesNothing(db, s, ok, env);
    } else {
      if !MutatesCatalog(s) { ReadersChangeNothing(db.Active(), s, env); }
      if log.open.Some? {
        ReplayAppend(start, log.committed + log.open.value, s, env);
        assert log.committed + (log.open.value + [s]) == log.committed + log.open.value + [s];
      } else {
        ReplayAppend(start, log.committed, s, env);
        assert log.committed + [] == log.committed;
      }
    }
  }

  /** A stale UPDATE inside a transaction that will fail on a key clash, as read off the state before it. */
  predicate Breaks(db: Db, s: Statement, env: Env) {
    db.transaction.Some? && BreaksIn(db.transaction.value, s, env)
  }

  lemma BreaksIff(db: Db, s: Statement, ok: bool, env: Env)
    requires DbSound(db, env)
    ensures Breaks(db, s, env) <==> Stale(db, s, env) && Step(db, s, ok, env).1.Err?
  {
    hide Exec, CatalogSound, StaleUpdate, KeyClash, EncodeCatalog, ExplainOutcome;
    if db.transaction.Some? { BreaksIffStaleErr(db.transaction.value, s, env); }
  }

  /** The i-th statement of a run is such an UPDATE. */
  predicate StaleFailure(db: Db, events: seq<Event>, i: nat, env: Env)
    requires i < |events|
  {
    Breaks(Run(db, events[..i], env), events[i].statement, env)
  }

  lemma StaleFailurePrefix(db: Db, events: seq<Event>, n: nat, i: nat, env: Env)
    requires i < n <= |events|
    ensures StaleFailure(db, events[..n], i, env) <==> StaleFailure(db, events, i, env)
  {
    hide Breaks, Step;
    assert events[..n][..i] == events[..i] && events[..n][i] == events[i];
  }

  lemma {:induction false} OutcomesPrefix(db: Db, events: seq<Event>, n: nat, env: Env)
    requires n <= |events|
    ensures Outcomes(db, events[..n], env) == Outcomes(db, events, env)[..n]
  {
    hide Step;
    if n < |events| {
      var m := |events| - 1;
      OutcomesPrefix(db, events[..m], n, env);
      assert events[..m][..n] == events[..n];
      assert Outcomes(db, events, env)[..n] == Outcomes(db, events[..m], env)[..n];
    } else {
      assert events[..n] == events;
    }
  }

  /** Over every run, with the file writable or not at each step, the committed catalog is the replay of
      exactly the statements that succeeded outside a transaction or inside one that committed, in order;
      the open transaction is that replay continued with its own successful statements. The one thing that can break
      this is a stale UPDATE that fails. */
  lemma {:induction false} ReplayLaw(db: Db, events: seq<Event>, env: Env)
    requires CatalogSound(db.catalog, env) && db.transaction.None?
    requires forall i :: 0 <= i < |events| ==> !StaleFailure(db, events, i, env)
    ensures DbSound(Run(db, events, env), env)
    ensures Tracks(Run(db, events, env), LogOf(events, Outcomes(db, events, env)), db.catalog, env)
  {
    hide Step, CatalogSound, Logged, Stale, StaleFailure;
    if events != [] {
      var n := |events| - 1;
      forall i | 0 <= i < n ensures !StaleFailure(db, events[..n], i, env) {
        StaleFailurePrefix(db, events, n, i, env);
      }
      ReplayLaw(db, events[..n], env);
      var before := Run(db, events[..n], env);
      assert Outcomes(db, events, env)[..n] == Outcomes(db, events[..n], env);
      StepSound(before, events[n].statement, events[n].ok, env);
      NotStaleLast(db, events, env);
      StepTracks(before, LogOf(events[..n], Outcomes(db, events[..n], env)), db.catalog, events[n].statement,
                 events[n].ok, env);
    }
  }

  lemma NotStaleLast(db: Db, events: seq<Event>, env: Env)
    requires events != [] && !StaleFailure(db, events, |events| - 1, env) &&
             DbSound(Run(db, events[..|events| - 1], env), env)
    ensures var (n, before) := (|events| - 1, Run(db, events[..|events| - 1], env));
            Step(before, events[n].statement, events[n].ok, env).1.Err? ==> !Stale(before, events[n].statement, env)
  {
    hide Step, Stale, Breaks, DbSound;
    var n := |events| - 1;
    BreaksIff(Run(db, events[..n], env), events[n].statement, events[n].ok, env);
  }

  /** The law at one moment of a run. */
  ghost predicate TracksAt(db: Db, events: seq<Event>, k: nat, env: Env)
    requires k <= |events|
  {
    Tracks(Run(db, events[..k], env), LogOf(events[..k], Outcomes(db, events[..k], env)), db.catalog, env)
  }

  lemma {:induction false} RunSound(db: Db, events: seq<Event>, env: Env)
    requires DbSound(db, env)
    ensures DbSound(Run(db, events, env), env)
  {
    hide Step, DbSound;
    if events != [] {
      var n := |events| - 1;
      RunSound(db, events[..n], env);
      StepSound(Run(db, events[..n], env), events[n].statement, events[n].ok, env);
    }
  }

  /** A stale failure breaks the law on the spot: the log stays, the staged catalog does not. */
  lemma StaleBreaks(db: Db, events: seq<Event>, i: nat, env: Env)
    requires DbSound(db, env) && i < |events| && TracksAt(db, events, i, env) && TracksAt(db, events, i + 1, env)
    ensures !StaleFailure(db, events, i, env)
  {
    hide Stale, Breaks, Replay, Logged, DbSound, Exec, EncodeCatalog;
    var before, e := Run(db, events[..i], env), events[i];
    RunSound(db, events[..i], env);
    assert events[..i + 1][..i] == events[..i];
    OutcomesPrefix(db, events, i + 1, env);
    BreaksIff(before, e.statement, e.ok, env);
    var r := Step(before, e.statement, e.ok, env).1;
    assert Outcomes(db, events[..i + 1], env) == Outcomes(db, events[..i], env) + [r];
    if r.Err? {
      FailureChangesNothing(before, e.statement, e.ok, env);
      FailureKeepsLog(LogOf(events[..i], Outcomes(db, events[..i], env)), e.statement, r);
      FailureKeepsFile(before, e.statement, e.ok, env);
    }
  }

  lemma FailureKeepsLog(log: Log, s: Statement, r: Outcome)
    requires r.Err?
    ensures Logged(log, s, r) == log
  {}

  lemma FailureKeepsFile(db: Db, s: Statement, ok: bool, env: Env)
    requires Step(db, s, ok, env).1.Err?
    ensures Step(db, s, ok, env).0.path == db.path && Step(db, s, ok, env).0.disk == db.disk
  {
    hide Exec, EncodeCatalog, ExplainOutcome;
  }

  /** The law holds at every moment of a run if and only if no stale UPDATE fails in it. */
  lemma ReplayLawIff(db: Db, events: seq<Event>, env: Env)
    requires CatalogSound(db.catalog, env) && db.transaction.None?
    ensures (forall k :: 0 <= k <= |events| ==> TracksAt(db, events, k, env)) <==>
            (forall i :: 0 <= i < |events| ==> !StaleFailure(db, events, i, env))
  {
    hide CatalogSound, StaleFailure, Tracks, Run, LogOf, TracksAt;
    if forall i :: 0 <= i < |events| ==> !StaleFailure(db, events, i, env) {
      forall k | 0 <= k <= |events| ensures TracksAt(db, events, k, env) { FreshTracksAt(db, events, k, env); }
    }
    if forall k :: 0 <= k <= |events| ==> TracksAt(db, events, k, env) {
      forall i | 0 <= i < |events| ensures !StaleFailure(db, events, i, env) { StaleBreaks(db, events, i, env); }
    }
  }

  lemma FreshTracksAt(db: Db, events: seq<Event>, k: nat, env: Env)
    requires CatalogSound(db.catalog, env) && db.transaction.None? && k <= |events|
    requires forall i :: 0 <= i < |events| ==> !StaleFailure(db, events, i, env)
    ensures TracksAt(db, events, k, env)
  {
    hide CatalogSound, StaleFailure, Tracks, Run, LogOf;
    forall i | 0 <= i < k ensures !StaleFailure(db, events[..k], i, env) { StaleFailurePrefix(db, events, k, i, env); }
    ReplayLaw(db, events[..k], env);
  }

  /** A run of a well-formed database has no stale UPDATE with the simple tokeniser, or without secondary index
      creation. */
  lemma {:induction false} KeptTokeniserNeverStale(db: Db, events: seq<Event>, env: Env)
    requires CatalogWellFormed(db.catalog, env) && db.transaction.None?
    requires forall i :: 0 <= i < |events| ==> KeepsTokeniser(events[i].statement, env)
    ensures DbWellFormed(Run(db, events, env), env)
    ensures forall i :: 0 <= i < |events| ==> !StaleFailure(db, events, i, env)
  {
    hide Step, CatalogWellFormed, Stale, StaleFailure, KeepsTokeniser;
    if events != [] {
      var n := |events| - 1;
      KeptTokeniserNeverStale(db, events[..n], env);
      StepWellFormed(Run(db, events[..n], env), events[n].statement, events[n].ok, env);
      forall i | 0 <= i < |events| ensures !StaleFailure(db, events, i, env) {
        if i < n { StaleFailurePrefix(db, events, n, i, env); } else { FreshLast(db, events, env); }
      }
    }
  }

  lemma FreshLast(db: Db, events: seq<Event>, env: Env)
    requires events != [] && DbWellFormed(Run(db, events[..|events| - 1], env), env)
    ensures !StaleFailure(db, events, |events| - 1, env)
  {
    hide Step, Stale, Breaks, DbWellFormed;
    var n := |events| - 1;
    WellFormedIsFresh(Run(db, events[..n], env), events[n].statement, env);
    if Breaks(Run(db, events[..n], env), events[n].statement, env) {
      BreaksIsStale(Run(db, events[..n], env), events[n].statement, env);
    }
  }

  lemma BreaksIsStale(db: Db, s: Statement, env: Env)
    requires Breaks(db, s, env)
    ensures Stale(db, s, env)
  {
    hide StaleUpdate, KeyClash;
  }

  // ---------------------------------------------------------------- durability

  /** `open_with_options` on a file with the given text. */
  function Open(disk: string, env: Env): Result<Catalog, Error> {
    if disk == "" then Ok(map[]) else DecodeCatalog(disk, env)
  }

  lemma SoundStorable(c: Catalog, env: Env)
    requires CatalogSound(c, env)
    ensures Storable(c)
  {
    hide Sound, Core;
    forall n | n in c ensures Core(c[n]) { SoundIsCore(c[n], env); }
  }

  /** Reopening the file, if there is one, gives the committed catalog, up to next row ids and the tokeniser of its
      full-text maps. */
  ghost predicate Durable(path: bool, disk: string, c: Catalog, env: Env) {
    path ==> Storable(c) && Open(disk, env) == Ok(Reopened(c, env))
  }

  ghost predicate DbDurable(db: Db, env: Env) { Durable(db.path, db.disk, db.catalog, env) }

  lemma EncodedOpens(c: Catalog, env: Env)
    requires Storable(c)
    ensures Open(EncodeCatalog(c), env) == Ok(Reopened(c, env))
  {
    hide Storable, Reopened, DecodeCatalog;
    DecodeOfEncode(c, env);
    EncodedNotEmpty(c);
  }

  /** A database on a new file is durable from the start. */
  lemma FreshDurable(env: Env)
    ensures Durable(true, "", map[], env)
  {
    assert Reopened(map[], env) == map[];
  }

  lemma StepDurable(db: Db, s: Statement, ok: bool, env: Env)
    requires DbSound(db, env) && DbDurable(db, env)
    ensures DbDurable(Step(db, s, ok, env).0, env)
  {
    hide Exec, CatalogSound, EncodeCatalog, ExplainOutcome, Storable, Reopened, Open;
    StepSound(db, s, ok, env);
    var next := Step(db, s, ok, env).0;
    SoundStorable(next.catalog, env);
    EncodedOpens(next.catalog, env);
    if !MutatesCatalog(s) { ReadersChangeNothing(db.Active(), s, env); }
  }

  lemma {:induction false} DurableLaw(db: Db, events: seq<Event>, env: Env)
    requires DbSound(db, env) && DbDurable(db, env)
    ensures DbSound(Run(db, events, env), env) && DbDurable(Run(db, events, env), env)
  {
    hide Step, DbSound, DbDurable;
    if events != [] {
      var n := |events| - 1;
      DurableLaw(db, events[..n], env);
      StepSound(Run(db, events[..n], env), events[n].statement, events[n].ok, env);
      StepDurable(Run(db, events[..n], env), events[n].statement, events[n].ok, env);
    }
  }

  lemma ReopenedSound(c: Catalog, env: Env)
    requires Storable(c)
    ensures CatalogWellFormed(Reopened(c, env), env)
  {
    hide Reread, Shape, Buildable, BuildIndexes, BuildPrimary, WellFormed;
    forall n | n in c ensures Reread(c[n], env).name == n && WellFormed(Reread(c[n], env), Tok(env, env.tokenizer)) {
      RereadSound(c[n], env);
    }
  }

  lemma RereadSound(t: Table, env: Env)
    requires Core(t)
    ensures Reread(t, env).name == t.name && WellFormed(Reread(t, env), Tok(env, env.tokenizer))
  {
    BuiltIsWellFormed(t, Tok(env, env.tokenizer));
    var u := Built(t, Tok(env, env.tokenizer));
    hide LeastNext, BuildPrimary, BuildIndexes, BuildFulltext, PrimaryOk, ColumnIndexable;
    assert Above(t.rows, LeastNext(t.rows));
  }

  /** A database opened on the file of a durable one starts where every law here starts: its catalog is
      indexed with the configured tokeniser, it is durable itself, and writing it changes nothing. */
  lemma RestartLaw(db: Db, env: Env)
    requires db.path && DbDurable(db, env)
    ensures Open(db.disk, env).Ok?
    ensures var again := Db(Open(db.disk, env).value, None, true, db.disk);
            && CatalogWellFormed(again.catalog, env)
            && DbDurable(again, env)
            && EncodeCatalog(again.catalog) == EncodeCatalog(db.catalog)
  {
    hide Reopened, Storable, EncodeCatalog, DecodeCatalog, CatalogWellFormed, CatalogSound;
    var c := Reopened(db.catalog, env);
    ReopenedSound(db.catalog, env);
    WellFormedIsSound(c, env);
    SoundStorable(c, env);
    TextFixedPoint(db.catalog, env);
    EncodedOpens(c, env);
    EncodedOpens(db.catalog, env);
    DecodeOfEncode(db.catalog, env);
  }

  lemma WellFormedIsSound(c: Catalog, env: Env)
    requires CatalogWellFormed(c, env)
    ensures CatalogSound(c, env)
  {
    hide WellFormed;
  }

  // ---------------------------------------------------------------- in place

  /** `execute_statement_with_options`: the statement carried out on the table objects of a catalog. */
  method ExecuteStatement(c: Catalog, s: Statement, env: Env) returns (after: Catalog, r: Outcome)
    requires CatalogSound(c, env)
    ensures (after, r) == Exec(c, s, env)
  {
    hide InsertRow, UpdateRows, DeleteRows, AddIndex, AddFulltext, SelectRows, NewTable, Core, Sound;
    after := c;
    if s.CreateTable? {
      if s.name in c { return c, Err(Execution); }
      var t := CreateTableValue(s.name, s.columns);
      if t.Err? { return c, Err(t.error); }
      return c[s.name := t.value], Ok(Message);
    }
    if !OnTable(s) || s.table !in c { return c, Err(Execution); }
    SoundIsCore(c[s.table], env);
    var t := new TableObject(c[s.table]);
    r := ExecuteOnTable(t, s, env);
    after := c[s.table := t.Value()];
  }

  method ExecuteOnTable(t: TableObject, s: Statement, env: Env) returns (r: Outcome)
    requires OnTable(s) && Sound(t.Value(), env)
    modifies t
    ensures (t.Value(), r) == ExecTable(old(t.Value()), s, env)
  {
    hide InsertRow, UpdateRows, DeleteRows, AddIndex, AddFulltext, SelectRows, Core, Sound;
    SoundIsCore(t.Value(), env);
    match s
    case CreateIndex(name, _, column, fulltext) =>
      if fulltext {
        var added := t.CreateFulltext(name, column, env);
        r := if added.Err? then Err(added.error) else Ok(Message);
      } else {
        var added := t.CreateIndex(name, column, env);
        r := if added.Err? then Err(added.error) else Ok(Message);
      }
    case Insert(_, targets, values) =>
      var inserted := t.Insert(targets, values, env);
      r := if inserted.Err? then Err(inserted.error) else Ok(Affected(1));
    case Select(_, projection, filter, order, limit) =>
      var rows := t.Select(projection, filter, order, limit, env);
      r := if rows.Err? then Err(rows.error) else Ok(Rows(rows.value));
    case Update(_, assignments, filter) =>
      var count := t.Update(assignments, filter, env);
      r := if count.Err? then Err(count.error) else Ok(Affected(count.value));
    case Delete(_, filter) =>
      var count := t.Delete(filter, env);
      r := if count.Err? then Err(count.error) else Ok(Affected(count.value));
  }

  class Database {
    var catalog: Catalog
    var transaction: Option<Catalog>
    const path: bool
    var disk: string

    function Value(): Db
      reads this
    {
      Db(catalog, transaction, path, disk)
    }

    constructor Memory()
      ensures Value() == Db(map[], None, false, "")
    {
      catalog, transaction, path, disk := map[], None, false, "";
    }

    /** Open a file whose text decodes. */
    constructor OpenFile(disk: string, env: Env)
      requires Open(disk, env).Ok?
      ensures Value() == Db(Open(disk, env).value, None, true, disk)
    {
      catalog, transaction, path := Open(disk, env).value, None, true;
      this.disk := disk;
    }

    /** `persist`: replace the whole file, or fail and leave it. */
    method Persist(ok: bool) returns (done: bool)
      modifies this`disk
      ensures done <==> CanWrite(path, ok)
      ensures Value() == if done then old(Value()).Persisted() else old(Value())
    {
      if !path { return true; }
      if !ok { return false; }
      disk := EncodeCatalog(catalog);
      done := true;
    }

    method Commit(ok: bool, env: Env) returns (r: Outcome)
      modifies this
      ensures (Value(), r) == Step(old(Value()), Statement.Commit, ok, env)
    {
      hide EncodeCatalog;
      if transaction.None? { return Err(Execution); }
      var previous := catalog;
      catalog := transaction.value;
      var done := Persist(ok);
      if !done {
        catalog := previous;
        return Err(Io);
      }
      transaction := None;
      r := Ok(Message);
    }

    /** Outside a transaction a mutating statement runs on the catalog itself, with a copy to go back to;
        everything else runs on whatever catalog is active. */
    method ExecuteCatalogStatement(s: Statement, ok: bool, env: Env) returns (r: Outcome)
      requires DbSound(Value(), env) && !s.Begin? && !s.Commit? && !s.Rollback? && !s.Explain?
      modifies this
      ensures (Value(), r) == Step(old(Value()), s, ok, env)
    {
      hide Exec, EncodeCatalog, CatalogSound;
      if MutatesCatalog(s) && transaction.None? {
        var before := catalog;
        catalog, r := ExecuteStatement(catalog, s, env);
        if r.Err? { catalog := before; return; }
        var done := Persist(ok);
        if !done { catalog := before; return Err(Io); }
      } else if transaction.Some? {
        var staged, out := ExecuteStatement(transaction.value, s, env);
        transaction := Some(staged);
        r := out;
      } else {
        catalog, r := ExecuteStatement(catalog, s, env);
      }
    }

    method ExecuteParsed(s: Statement, ok: bool, env: Env) returns (r: Outcome)
      requires DbSound(Value(), env)
      modifies this
      ensures (Value(), r) == Step(old(Value()), s, ok, env)
      ensures DbSound(Value(), env)
    {
      hide Exec, EncodeCatalog, CatalogSound, ExplainOutcome;
      StepSound(Value(), s, ok, env);
      match s
      case Begin =>
        if transaction.Some? { return Err(Execution); }
        transaction := Some(catalog);
        r := Ok(Message);
      case Commit => r := Commit(ok, env);
      case Rollback =>
        if transaction.None? { return Err(Execution); }
        transaction := None;
        r := Ok(Message);
      case Explain(inner) => r := ExplainOutcome(Value().Active(), inner, env);
      case _ => r := ExecuteCatalogStatement(s, ok, env);
    }
  }
}
