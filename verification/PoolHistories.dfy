/** Laws over whole runs of the pool: held rows, row ids, what is visible before a commit, the file, the indexes. */
module PoolHistories {
  import opened Basics
  import opened Ast
  import opened Tables
  import opened TableFacts
  import opened AccessPaths
  import opened Catalogs
  import opened CatalogRoundTrip
  import opened Engine
  import opened Databases
  import opened LockKeys
  import opened Merge
  import P = Pools
  import opened Pools
  import opened PoolFacts
  import opened PoolLaws
  import opened PoolCommits

  // ---------------------------------------------------------------- what a step may change

  /** Equal but for next row ids, which may only have advanced. */
  ghost predicate SameButNext(c: Catalog, d: Catalog) {
    && c.Keys == d.Keys
    && forall n :: n in c ==> c[n].nextRowId <= d[n].nextRowId && d[n] == c[n].(nextRowId := d[n].nextRowId)
  }

  lemma SameButNextSteps(c: Catalog, d: Catalog, e: Catalog)
    requires SameButNext(c, d) && SameButNext(d, e)
    ensures SameButNext(c, e)
  {}

  /** The steps after which a client is told that its work is committed. */
  ghost predicate Publishes(p: Pool, e: P.Event, env: Env) {
    && e.Act? && e.c in p.conns && Enabled(p.conns[e.c], e.action)
    && (e.action.DoCommit? || e.action.DoAuto? || e.action.DoDdl?)
    && var r := LocalStep(p.shared, p.nextTx, p.conns[e.c], e.action, env).result; r.Some? && r.value.Ok?
  }

  /** Locking rows and reserving an id changes one next row id at most, and never the file. */
  lemma StageQuiet(sh: Shared, tx: Tx, s: Statement, env: Env)
    ensures var after := Stage(sh, tx, s, env).shared;
            SameButNext(sh.catalog, after.catalog) && after.disk == sh.disk && after.path == sh.path
  {
    hide KeysToLock, LockAll, RowKey, Reserve, SameButNext;
    var keys := KeysToLock(tx.staged, s, env);
    SameButNextSelf(sh.catalog);
    if keys.Ok? {
      var l := LockAll(sh.locks, tx.locked, tx.id, keys.value);
      ReserveQuiet(sh.(locks := l.locks), tx.(locked := l.locked), s);
    }
  }

  lemma SameButNextSelf(c: Catalog)
    ensures SameButNext(c, c)
  {}

  lemma ReserveQuiet(sh: Shared, tx: Tx, s: Statement)
    ensures var after := Reserve(sh, tx, s).shared;
            SameButNext(sh.catalog, after.catalog) && after.disk == sh.disk && after.path == sh.path
  {
    hide RowKey, SameButNext;
    SameButNextSelf(sh.catalog);
    if s.Insert? && s.table in sh.catalog { BumpedQuiet(sh.catalog, s.table, sh.catalog[s.table].nextRowId + 1); }
  }

  lemma BumpedQuiet(c: Catalog, n: string, next: nat)
    requires n in c && c[n].nextRowId <= next
    ensures SameButNext(c, Bumped(c, n, next))
  {}

  lemma LocalQuiet(sh: Shared, nextTx: nat, conn: Conn, a: Action, env: Env)
    requires Enabled(conn, a)
    requires a.DoCommit? || a.DoAuto? || a.DoDdl? ==> LocalStep(sh, nextTx, conn, a, env).result.value.Err?
    ensures var after := LocalStep(sh, nextTx, conn, a, env).shared;
            SameButNext(sh.catalog, after.catalog) && after.disk == sh.disk && after.path == sh.path
  {
    hide Stage, Exec, MergeCatalogs, Release, EncodeCatalog;
    if a.DoLock? { StageQuiet(sh, conn.tx.value, a.s, env); }
  }

  /** A step that commits nothing leaves every row, definition, index and the file as they were. */
  lemma QuietStep(p: Pool, e: P.Event, env: Env)
    requires !Publishes(p, e, env)
    ensures var q := P.Step(p, e, env);
            SameButNext(p.shared.catalog, q.shared.catalog) && q.shared.disk == p.shared.disk
  {
    hide LocalStep;
    if e.Act? && e.c in p.conns && Enabled(p.conns[e.c], e.action) {
      ResultOf(p.shared, p.nextTx, p.conns[e.c], e.action, env);
      LocalQuiet(p.shared, p.nextTx, p.conns[e.c], e.action, env);
    }
  }

  lemma ResultOf(sh: Shared, nextTx: nat, conn: Conn, a: Action, env: Env)
    requires Enabled(conn, a)
    ensures a.DoCommit? || a.DoAuto? || a.DoDdl? ==> LocalStep(sh, nextTx, conn, a, env).result.Some?
  {
    hide Stage, Exec, MergeCatalogs, Release, EncodeCatalog;
  }

  /** Uncommitted work never leaks: over any run without a successful COMMIT or autocommit, the committed catalog
      keeps its rows, schemas and index contents, its encoded text and its file. */
  lemma {:induction false} NothingLeaks(p: Pool, events: seq<P.Event>, env: Env)
    requires forall i :: 0 <= i < |events| ==> !Publishes(P.Run(p, events[..i], env), events[i], env)
    ensures var q := P.Run(p, events, env);
            && SameButNext(p.shared.catalog, q.shared.catalog)
            && q.shared.disk == p.shared.disk
            && EncodeCatalog(q.shared.catalog) == EncodeCatalog(p.shared.catalog)
  {
    hide P.Step, Publishes, EncodeCatalog;
    var q := P.Run(p, events, env);
    if events != [] {
      var n := |events| - 1;
      assert forall i :: 0 <= i < n ==> events[..n][..i] == events[..i] && events[..n][i] == events[i];
      NothingLeaks(p, events[..n], env);
      QuietStep(P.Run(p, events[..n], env), events[n], env);
      SameButNextSteps(p.shared.catalog, P.Run(p, events[..n], env).shared.catalog, q.shared.catalog);
    }
    SameButNextText(p.shared.catalog, q.shared.catalog);
  }

  lemma SameButNextText(c: Catalog, d: Catalog)
    requires SameButNext(c, d)
    ensures EncodeCatalog(c) == EncodeCatalog(d)
  {
    hide EncodeCatalog;
    EncodeSameText(c, d);
  }

  /** Inside a transaction the only step that publishes is COMMIT; a ROLLBACK, a drop or a failed COMMIT never does. */
  lemma OnlyCommitPublishes(p: Pool, c: nat, a: Action, env: Env)
    requires Reachable(p, env) && Active(p, c) && Publishes(p, Act(c, a), env)
    ensures a.DoCommit?
  {
    hide SharedOk, TxOk, Ready, IssuedOk, LocalStep, Reachable;
    ReachableOk(p, env);
    assert ConnOk(p.shared, p.nextTx, p.conns[c], env);
  }

  // ---------------------------------------------------------------- held rows

  ghost predicate HoldsKey(p: Pool, c: nat, n: string, id: nat) {
    Active(p, c) && RowKey(n, id) in p.conns[c].tx.value.locked
  }

  /** An autocommitted statement that can be written and overwrites the row. */
  ghost predicate Overruns(p: Pool, e: P.Event, n: string, id: nat, env: Env) {
    && e.Act? && e.c in p.conns && Enabled(p.conns[e.c], e.action) && e.action.DoAuto?
    && OnTable(e.action.s) && e.action.s.table == n && n in p.shared.catalog
    && CanWrite(p.shared.path, e.action.ok) && Overwrites(p.shared.catalog[n], e.action.s, id, env)
  }

  lemma ExecChangesIff(c: Catalog, s: Statement, env: Env, n: string, id: nat)
    requires CatalogSound(c, env) && n in c && id < c[n].nextRowId && !IsDdl(s)
    ensures Exec(c, s, env).1.Ok? && RowAt(Exec(c, s, env).0, n, id) != RowAt(c, n, id) <==>
            OnTable(s) && s.table == n && Overwrites(c[n], s, id, env)
  {
    hide ExecTable, NewTable, Overwrites, Sound, Core;
    if OnTable(s) && s.table == n {
      SoundIsCore(c[n], env);
      OverwritesIff(c[n], s, id, env);
    }
  }

  lemma AutoChangesIff(sh: Shared, s: Statement, ok: bool, env: Env, n: string, id: nat)
    requires CatalogSound(sh.catalog, env) && n in sh.catalog && id < sh.catalog[n].nextRowId && !IsDdl(s)
    ensures RowAt(AutoCommit(sh, s, ok, env).0.catalog, n, id) != RowAt(sh.catalog, n, id) <==>
            OnTable(s) && s.table == n && CanWrite(sh.path, ok) && Overwrites(sh.catalog[n], s, id, env)
  {
    hide Exec, EncodeCatalog, Overwrites, CatalogSound, RowAt;
    ExecChangesIff(sh.catalog, s, env, n, id);
  }

  lemma DdlKeepsRows(c: Catalog, s: Statement, env: Env, n: string, id: nat)
    requires IsDdl(s) && n in c
    ensures RowAt(Exec(c, s, env).0, n, id) == RowAt(c, n, id)
  {
    hide Buildable, BuildIndexes, BuildFulltext, BuildPrimary, FindColumn, NewTable;
  }

  lemma DdlAutoKeepsRows(sh: Shared, s: Statement, ok: bool, env: Env, n: string, id: nat)
    requires IsDdl(s) && n in sh.catalog
    ensures RowAt(AutoCommit(sh, s, ok, env).0.catalog, n, id) == RowAt(sh.catalog, n, id)
  {
    hide Exec, EncodeCatalog, RowAt;
    DdlKeepsRows(sh.catalog, s, env, n, id);
  }

  lemma HeldByOther(p: Pool, c: nat, d: nat, ok: bool, env: Env, n: string, id: nat)
    requires PoolOk(p, env) && HoldsKey(p, c, n, id) && Active(p, d) && c != d
    ensures RowAt(CommitTx(p.shared, p.conns[d].tx.value, ok, env).0.catalog, n, id) == RowAt(p.shared.catalog, n, id)
  {
    hide RowKey, SharedOk, CommitTx, RowAt, CatalogSound, Follows, KnownKeys, Covers, SameSchemas, SameButRows, ConnOk,
         IssuedOk;
    ActiveOk(p, c, env);
    ActiveOk(p, d, env);
    assert RowKey(n, id) !in p.conns[d].tx.value.locked;
    CommitRows(p.shared, p.nextTx, p.conns[d].tx.value, ok, env);
  }

  lemma HeldTableCommitted(p: Pool, c: nat, n: string, id: nat, env: Env)
    requires PoolOk(p, env) && HoldsKey(p, c, n, id)
    ensures n in p.shared.catalog && id < p.shared.catalog[n].nextRowId
  {
    hide RowKey, CatalogSound, Covers, SameSchemas, ConnOk, IssuedOk, KnownKeys, Follows;
    ActiveOk(p, c, env);
  }

  /** Exactly which steps of other connections change a held row: no COMMIT, no definition, no locking; only
      autocommitted statements that overwrite it, since these never look at the lock table. */
  lemma HeldStepIff(p: Pool, c: nat, e: P.Event, env: Env, n: string, id: nat)
    requires PoolOk(p, env) && HoldsKey(p, c, n, id) && e.c != c
    ensures var q := P.Step(p, e, env);
            && c in q.conns && q.conns[c] == p.conns[c]
            && (RowAt(q.shared.catalog, n, id) != RowAt(p.shared.catalog, n, id) <==> Overruns(p, e, n, id, env))
  {
    hide RowKey, TxOk, Ready, IssuedOk, Stage, Exec, CommitTx, Release, AutoCommit, EncodeCatalog, SameButNext,
         Publishes, Overwrites, KeysBelow, CatalogSound;
    if e.Act? && e.c in p.conns && Enabled(p.conns[e.c], e.action) {
      var conn := p.conns[e.c];
      HeldTableCommitted(p, c, n, id, env);
      assert ConnOk(p.shared, p.nextTx, conn, env);
      match e.action
      case DoCommit(ok) => if conn.tx.Some? { HeldByOther(p, c, e.c, ok, env, n, id); }
      case DoAuto(s, ok) => AutoChangesIff(p.shared, s, ok, env, n, id);
      case DoDdl(ok) => DdlAutoKeepsRows(p.shared, conn.pending.statement, ok, env, n, id);
      case DoLock(s) =>
        StageQuiet(p.shared, conn.tx.value, s, env);
        SameButNextRows(p.shared.catalog, Stage(p.shared, conn.tx.value, s, env).shared.catalog, n, id);
      case _ =>
    }
  }

  lemma SameButNextRows(c: Catalog, d: Catalog, n: string, id: nat)
    requires SameButNext(c, d)
    ensures RowAt(c, n, id) == RowAt(d, n, id)
  {}

  /** While a transaction holds a row key, no interleaving of other connections, whatever they lock, commit or define,
      changes that committed row, unless an autocommitted statement overruns it. */
  lemma {:induction false} HeldRowLaw(p: Pool, c: nat, events: seq<P.Event>, env: Env, n: string, id: nat)
    requires PoolOk(p, env) && HoldsKey(p, c, n, id)
    requires forall i :: 0 <= i < |events| ==>
               events[i].c != c && !Overruns(P.Run(p, events[..i], env), events[i], n, id, env)
    ensures var q := P.Run(p, events, env);
            HoldsKey(q, c, n, id) && RowAt(q.shared.catalog, n, id) == RowAt(p.shared.catalog, n, id)
  {
    hide RowKey, PoolOk, P.Step, RowAt, Overruns;
    if events != [] {
      var k := |events| - 1;
      assert forall i :: 0 <= i < k ==> events[..k][..i] == events[..i] && events[..k][i] == events[i];
      HeldRowLaw(p, c, events[..k], env, n, id);
      var q := P.Run(p, events[..k], env);
      RunOk(p, events[..k], env);
      HeldStepIff(q, c, events[k], env, n, id);
    }
  }

  lemma {:induction false} StillHeld(p: Pool, c: nat, events: seq<P.Event>, env: Env, n: string, id: nat)
    requires PoolOk(p, env) && HoldsKey(p, c, n, id) && forall i :: 0 <= i < |events| ==> events[i].c != c
    ensures PoolOk(P.Run(p, events, env), env) && HoldsKey(P.Run(p, events, env), c, n, id)
  {
    hide RowKey, PoolOk, P.Step, RowAt, Overruns;
    if events != [] {
      var k := |events| - 1;
      assert forall i :: 0 <= i < k ==> events[..k][i] == events[i];
      StillHeld(p, c, events[..k], env, n, id);
      RunOk(p, events, env);
      HeldStepIff(P.Run(p, events[..k], env), c, events[k], env, n, id);
    }
  }

  /** The row keeps its value at every moment of such a run if and only if nothing overruns it. */
  lemma HeldRowIff(p: Pool, c: nat, events: seq<P.Event>, env: Env, n: string, id: nat)
    requires PoolOk(p, env) && HoldsKey(p, c, n, id) && forall i :: 0 <= i < |events| ==> events[i].c != c
    ensures (forall k :: 0 <= k <= |events| ==>
               RowAt(P.Run(p, events[..k], env).shared.catalog, n, id) == RowAt(p.shared.catalog, n, id)) <==>
            (forall i :: 0 <= i < |events| ==> !Overruns(P.Run(p, events[..i], env), events[i], n, id, env))
  {
    hide RowKey, PoolOk, P.Step, RowAt, Overruns, P.Run, HoldsKey;
    if forall i :: 0 <= i < |events| ==> !Overruns(P.Run(p, events[..i], env), events[i], n, id, env) {
      forall k | 0 <= k <= |events|
        ensures RowAt(P.Run(p, events[..k], env).shared.catalog, n, id) == RowAt(p.shared.catalog, n, id)
      {
        assert forall i :: 0 <= i < k ==> events[..k][..i] == events[..i] && events[..k][i] == events[i];
        HeldRowLaw(p, c, events[..k], env, n, id);
      }
    }
    if forall k :: 0 <= k <= |events| ==>
         RowAt(P.Run(p, events[..k], env).shared.catalog, n, id) == RowAt(p.shared.catalog, n, id)
    {
      forall i | 0 <= i < |events| ensures !Overruns(P.Run(p, events[..i], env), events[i], n, id, env) {
        assert forall j :: 0 <= j < i ==> events[..i][j] == events[j];
        StillHeld(p, c, events[..i], env, n, id);
        NextRun(p, events, i, env);
        HeldStepIff(P.Run(p, events[..i], env), c, events[i], env, n, id);
      }
    }
  }

  lemma NextRun(p: Pool, events: seq<P.Event>, i: nat, env: Env)
    requires i < |events|
    ensures P.Run(p, events[..i + 1], env) == P.Step(P.Run(p, events[..i], env), events[i], env)
  {
    hide P.Step;
    assert events[..i + 1][..i] == events[..i];
  }

  // ---------------------------------------------------------------- locks left behind

  /** A lock whose owner is no active transaction, now or ever again. */
  ghost predicate Dead(p: Pool, k: string) {
    && k in p.shared.locks && p.shared.locks[k] < p.nextTx
    && forall c :: c in p.conns && p.conns[c].tx.Some? ==> p.conns[c].tx.value.id != p.shared.locks[k]
  }

  lemma DeadStep(p: Pool, e: P.Event, k: string, env: Env)
    requires PoolOk(p, env) && Dead(p, k)
    ensures var q := P.Step(p, e, env); Dead(q, k) && q.shared.locks[k] == p.shared.locks[k]
  {
    hide SharedOk, ConnOk, IssuedOk, DistinctTx, LocalStep, Follows, IssuedBy;
    if e.Act? && e.c in p.conns && Enabled(p.conns[e.c], e.action) {
      LocalStepOk(p.shared, p.nextTx, p.conns[e.c], e.action, env);
    }
  }

  lemma {:induction false} DeadRun(p: Pool, events: seq<P.Event>, k: string, env: Env)
    requires PoolOk(p, env) && Dead(p, k)
    ensures var q := P.Run(p, events, env); Dead(q, k) && q.shared.locks[k] == p.shared.locks[k]
  {
    hide PoolOk, P.Step;
    if events != [] {
      var n := |events| - 1;
      DeadRun(p, events[..n], k, env);
      RunOk(p, events[..n], env);
      DeadStep(P.Run(p, events[..n], env), events[n], k, env);
    }
  }

  lemma LockedBlocksDdl(p: Pool, k: string, c: nat, s: Statement, env: Env)
    requires k in p.shared.locks && c in p.conns && Enabled(p.conns[c], DoDdlCheck(s))
    ensures LocalStep(p.shared, p.nextTx, p.conns[c], DoDdlCheck(s), env) ==
            Local(p.shared, p.nextTx, p.conns[c], Some(Err(Execution)))
  {}

  /** After a COMMIT whose rows could not be overlaid, its locks stay through every later run, and every later CREATE
      TABLE or CREATE INDEX on any connection is refused. */
  lemma FailedMergeBlocksForever(p: Pool, c: nat, ok: bool, events: seq<P.Event>, k: string, env: Env)
    requires Reachable(p, env) && Active(p, c) && p.conns[c].pending.Nothing?
    requires !Overlayable(p.shared, p.conns[c].tx.value) && k in p.conns[c].tx.value.locked
    ensures var q := P.Run(P.Step(p, Act(c, DoCommit(ok)), env), events, env);
            && Dead(q, k) && q.shared.locks[k] == p.conns[c].tx.value.id
            && forall d, s :: d in q.conns && Enabled(q.conns[d], DoDdlCheck(s)) ==>
                 LocalStep(q.shared, q.nextTx, q.conns[d], DoDdlCheck(s), env) ==
                 Local(q.shared, q.nextTx, q.conns[d], Some(Err(Execution)))
  {
    hide Reachable, PoolOk, Overlayable, LocalStep, P.Run;
    var q := P.Step(p, Act(c, DoCommit(ok)), env);
    ReachableOk(p, env);
    FailedMergeLeavesDead(p, c, ok, k, env);
    StepOk(p, Act(c, DoCommit(ok)), env);
    DeadRun(q, events, k, env);
    var r := P.Run(q, events, env);
    forall d, s | d in r.conns && Enabled(r.conns[d], DoDdlCheck(s))
      ensures LocalStep(r.shared, r.nextTx, r.conns[d], DoDdlCheck(s), env) ==
              Local(r.shared, r.nextTx, r.conns[d], Some(Err(Execution)))
    {
      LockedBlocksDdl(r, k, d, s, env);
    }
  }

  lemma FailedMergeLeavesDead(p: Pool, c: nat, ok: bool, k: string, env: Env)
    requires Reachable(p, env) && Active(p, c) && p.conns[c].pending.Nothing?
    requires !Overlayable(p.shared, p.conns[c].tx.value) && k in p.conns[c].tx.value.locked
    ensures var q := P.Step(p, Act(c, DoCommit(ok)), env); Dead(q, k) && q.shared.locks[k] == p.conns[c].tx.value.id
  {
    hide Reachable, SharedOk, ConnOk, IssuedOk, Overlayable, CommitTx, CatalogSound, Follows, KnownKeys, Covers,
         SameSchemas, IssuedBy;
    ReachableOk(p, env);
    ActiveOk(p, c, env);
    CommitReleasesIff(p, c, ok, env);
  }

  // ---------------------------------------------------------------- row ids

  /** No two reservations or autocommitted inserts of a run were given the same row id. */
  lemma IssuedOnce(p: Pool, env: Env, i: nat, j: nat)
    requires Reachable(p, env) && i < j < |p.issued|
    ensures p.issued[i] != p.issued[j]
  {
    hide Reachable, SharedOk, ConnOk, DistinctTx;
    ReachableOk(p, env);
  }

  /** A staged INSERT stores its row under the id its reservation took off the committed table. */
  lemma InsertUsesReserved(p: Pool, c: nat, s: Statement, env: Env)
    requires Reachable(p, env) && Active(p, c) && s.Insert?
    requires Stage(p.shared, p.conns[c].tx.value, s, env).ok
    ensures s.table in p.shared.catalog
    ensures var (id, st) := (p.shared.catalog[s.table].nextRowId, Stage(p.shared, p.conns[c].tx.value, s, env));
            var (after, r) := Exec(st.tx.staged, s, env);
            && IssuedBy(p.shared, st.shared, DoLock(s)) == [(s.table, id)]
            && s.table in st.tx.staged && s.table in after
            && id !in st.tx.staged[s.table].rows
            && (r.Ok? ==> after[s.table].rows.Keys == st.tx.staged[s.table].rows.Keys + {id})
  {
    hide PoolOk, SharedOk, TxOk, Reachable, KeysToLock, LockAll, ExecTable, RowKey, Ready, Sound, Reserve, Frame;
    ReachableOk(p, env);
    ActiveOk(p, c, env);
    var (sh, tx) := (p.shared, p.conns[c].tx.value);
    LockLoopOk(sh, p.nextTx, tx, s, env);
    var l := LockAll(sh.locks, tx.locked, tx.id, KeysToLock(tx.staged, s, env).value);
    var sh1, tx1 := sh.(locks := l.locks), tx.(locked := l.locked);
    InsertStaged(tx.staged, s, env);
    ReserveOk(sh1, p.nextTx, tx1, s, env);
    ReserveAdvances(sh1, tx1, s);
    var t := Stage(sh, tx, s, env).tx.staged[s.table];
    StagedTableSound(Stage(sh, tx, s, env).shared, p.nextTx, Stage(sh, tx, s, env).tx, env, s.table);
    SoundRowsBelow(t, env);
    if ExecTable(t, s, env).1.Ok? { InsertAdds(t, s, env); }
  }

  lemma ReserveAdvances(sh: Shared, tx: Tx, s: Statement)
    requires s.Insert? && s.table in sh.catalog
    ensures var after := Reserve(sh, tx, s).shared.catalog;
            s.table in after && after[s.table].nextRowId == sh.catalog[s.table].nextRowId + 1
  {
    hide RowKey;
  }

  lemma StagedTableSound(sh: Shared, nextTx: nat, tx: Tx, env: Env, n: string)
    requires TxOk(sh, nextTx, tx, env) && n in tx.staged
    ensures Sound(tx.staged[n], env)
  {
    hide Sound, Follows, Owns, KnownKeys, Covers, SameSchemas;
  }

  lemma InsertAdds(t: Table, s: Statement, env: Env)
    requires s.Insert? && ExecTable(t, s, env).1.Ok?
    ensures ExecTable(t, s, env).0.rows.Keys == t.rows.Keys + {t.nextRowId}
  {
    hide NewRow, PrimaryFree, Buildable, BuildIndexes, BuildFulltext, BuildPrimary;
  }

  // ---------------------------------------------------------------- the file

  /** The file is durable even while row ids are reserved. */
  ghost predicate PoolDurable(sh: Shared, env: Env) { Durable(sh.path, sh.disk, sh.catalog, env) }

  /** A pool over a written file, or over no file and nothing in memory, starts durable. */
  lemma StartDurable(c: Catalog, env: Env)
    requires CatalogSound(c, env)
    ensures PoolDurable(P.Start(c, true, EncodeCatalog(c)).shared, env)
    ensures PoolDurable(P.Start(map[], true, "").shared, env)
  {
    hide CatalogSound, EncodeCatalog, Open;
    SoundStorable(c, env);
    EncodedOpens(c, env);
    FreshDurable(env);
  }

  lemma PublishWrites(p: Pool, e: P.Event, env: Env)
    requires Publishes(p, e, env)
    ensures var q := P.Step(p, e, env); q.shared.path ==> q.shared.disk == EncodeCatalog(q.shared.catalog)
  {
    hide Exec, MergeCatalogs, Release, EncodeCatalog;
  }

  lemma RereadIgnoresNext(t: Table, next: nat, env: Env)
    requires Buildable(t)
    ensures Buildable(t.(nextRowId := next)) && Reread(t.(nextRowId := next), env) == Reread(t, env)
  {
    hide LeastNext, BuildPrimary, BuildIndexes, BuildFulltext, PrimaryOk, ColumnIndexable;
  }

  lemma ReopenedIgnoresNext(c: Catalog, d: Catalog, env: Env)
    requires Storable(c) && Storable(d) && SameButNext(c, d)
    ensures Reopened(c, env) == Reopened(d, env)
  {
    hide Reread, Shape, Buildable, BuildIndexes, BuildPrimary;
    forall n | n in c ensures Reread(c[n], env) == Reread(d[n], env) {
      RereadIgnoresNext(c[n], d[n].nextRowId, env);
    }
  }

  lemma DurableStep(p: Pool, e: P.Event, env: Env)
    requires PoolOk(p, env) && PoolDurable(p.shared, env)
    ensures PoolDurable(P.Step(p, e, env).shared, env)
  {
    hide P.Step, Publishes, SameButNext, Storable, Reopened, Open, EncodeCatalog, CatalogSound, ConnOk, IssuedOk,
         DistinctTx, KeysBelow;
    var q := P.Step(p, e, env);
    StepOk(p, e, env);
    SoundStorable(p.shared.catalog, env);
    SoundStorable(q.shared.catalog, env);
    if Publishes(p, e, env) {
      PublishWrites(p, e, env);
      EncodedOpens(q.shared.catalog, env);
    } else {
      QuietStep(p, e, env);
      PathStays(p, e, env);
      ReopenedIgnoresNext(p.shared.catalog, q.shared.catalog, env);
    }
  }

  lemma PathStays(p: Pool, e: P.Event, env: Env)
    ensures P.Step(p, e, env).shared.path == p.shared.path
  {
    hide KeysToLock, LockAll, Exec, MergeCatalogs, Release, EncodeCatalog, RowKey;
  }

  /** Durability over every run, with writes failing at will. */
  lemma {:induction false} DurableRun(p: Pool, events: seq<P.Event>, env: Env)
    requires PoolOk(p, env) && PoolDurable(p.shared, env)
    ensures PoolDurable(P.Run(p, events, env).shared, env)
  {
    hide P.Step, PoolOk, PoolDurable;
    if events != [] {
      DurableRun(p, events[..|events| - 1], env);
      RunOk(p, events[..|events| - 1], env);
      DurableStep(P.Run(p, events[..|events| - 1], env), events[|events| - 1], env);
    }
  }

  // ---------------------------------------------------------------- the indexes

  /** In every reachable state, merges included and under every tokeniser, a lookup on a committed table finds the
      rows a scan finds, in the scan's order, if and only if the filter is refused, or takes no index that can
      disagree: an equality on a number spelled two ways, or a MATCH whose words two tokenisers see differently. */
  lemma CommittedIndexesAgree(p: Pool, n: string, filter: Option<Filter>, env: Env)
    requires Reachable(p, env) && n in p.shared.catalog
    ensures IndexesAgreeIff(p.shared.catalog[n], filter, env)
  {
    hide Reachable, ConnOk, IssuedOk, DistinctTx, KeysBelow, Sound, IndexesAgreeIff;
    ReachableOk(p, env);
    SoundAgrees(p.shared.catalog[n], filter, env);
  }

  /** And so does every lookup a transaction makes in its staged catalog, which is how it chooses the rows to lock. */
  lemma StagedIndexesAgree(p: Pool, c: nat, n: string, filter: Option<Filter>, env: Env)
    requires Reachable(p, env) && Active(p, c) && n in p.conns[c].tx.value.staged
    ensures IndexesAgreeIff(p.conns[c].tx.value.staged[n], filter, env)
  {
    hide Reachable, ConnOk, IssuedOk, PoolOk, SharedOk, Sound, TxOk, IndexesAgreeIff;
    ReachableOk(p, env);
    ActiveOk(p, c, env);
    StagedTableSound(p.shared, p.nextTx, p.conns[c].tx.value, env, n);
    SoundAgrees(p.conns[c].tx.value.staged[n], filter, env);
  }

  /** The exact condition, and two that imply it: no negative zero for an equality, and for a MATCH the simple tokeniser
      or full-text maps of the configured one. */
  ghost predicate IndexesAgreeIff(t: Table, filter: Option<Filter>, env: Env) {
    var agrees := Matching(t, filter, env) == ReferenceMatching(t.columns, t.rows, filter, env);
    var f := NormalizeFilter(t.columns, filter, env);
    && (agrees <==> f.Err? || PathAgrees(t, f.value, env, FilledBy(t, env)))
    && (Servable(t, filter, env) ==> agrees)
    && (env.tokenizer == Simple && NoNegativeZeros(t.rows) && FilterPlain(filter) ==> agrees)
  }

  lemma SoundAgrees(t: Table, filter: Option<Filter>, env: Env)
    requires Sound(t, env)
    ensures IndexesAgreeIff(t, filter, env)
  {
    hide Matching, ReferenceMatching, NoNegativeZeros, FilterPlain, NormalizeFilter, PathAgrees, FilledBy, Sound, Core,
         Servable;
    SoundMatchingIff(t, filter, env);
    SoundIsCore(t, env);
    if env.tokenizer == Simple && NoNegativeZeros(t.rows) && FilterPlain(filter) { SimpleServes(t, filter, env); }
    if Servable(t, filter, env) { MatchingAgrees(t, filter, env); }
  }
}
