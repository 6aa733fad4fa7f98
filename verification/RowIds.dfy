/** Where row ids come from: every row that a run adds carries an id the run has handed out. */
module RowIds {
  import opened Basics
  import opened Values
  import opened Ast
  import opened Tables
  import opened TableFacts
  import opened Selects
  import opened Catalogs
  import opened Engine
  import opened LockKeys
  import opened Merge
  import P = Pools
  import opened Pools
  import opened PoolFacts
  import opened PoolLaws
  import opened PoolCommits
  import opened PoolHistories

  /** Every row of a catalog was there from the start or has an issued id. */
  ghost predicate FromIssued(start: Catalog, c: Catalog, issued: seq<(string, nat)>) {
    forall n: string, id: nat :: RowAt(c, n, id).Some? ==> RowAt(start, n, id).Some? || (n, id) in issued
  }

  /** The row an INSERT that is let through will add has an issued id. */
  ghost predicate InsertIssued(conn: Conn, issued: seq<(string, nat)>) {
    conn.tx.Some? && conn.pending.Execute? && conn.pending.statement.Insert? ==>
      var (s, staged) := (conn.pending.statement, conn.tx.value.staged);
      s.table in staged ==> (s.table, staged[s.table].nextRowId) in issued
  }

  ghost predicate ConnIssued(start: Catalog, conn: Conn, issued: seq<(string, nat)>) {
    && (conn.tx.Some? ==> FromIssued(start, conn.tx.value.staged, issued))
    && InsertIssued(conn, issued)
  }

  ghost predicate AllIssued(start: Catalog, p: Pool) {
    && FromIssued(start, p.shared.catalog, p.issued)
    && forall c :: c in p.conns ==> ConnIssued(start, p.conns[c], p.issued)
  }

  /** A statement adds at most the row at the next row id, and moves that on when it does. */
  lemma ExecAdds(c: Catalog, s: Statement, env: Env, n: string, id: nat)
    requires RowAt(Exec(c, s, env).0, n, id).Some? && RowAt(c, n, id).None?
    ensures s.Insert? && s.table == n && n in c && id == c[n].nextRowId
    ensures n in Exec(c, s, env).0 && Exec(c, s, env).0[n].nextRowId == id + 1
  {
    hide ExecTable;
    if OnTable(s) && s.table in c && s.table == n { RowsAdded(c[n], s, env); }
  }

  lemma RowsAdded(t: Table, s: Statement, env: Env)
    requires OnTable(s)
    ensures var u := ExecTable(t, s, env).0;
            if s.Insert? && u.rows != t.rows
            then u.rows.Keys == t.rows.Keys + {t.nextRowId} && u.nextRowId == t.nextRowId + 1
            else u.rows.Keys <= t.rows.Keys
  {
    hide Matching, NormalizeAssignments, Assign, NewRow, PrimaryFree, FindColumn, Buildable, BuildIndexes,
         BuildFulltext, BuildPrimary, SelectRows;
  }

  lemma Grown(start: Catalog, c: Catalog, issued: seq<(string, nat)>, more: seq<(string, nat)>)
    requires FromIssued(start, c, issued)
    ensures FromIssued(start, c, issued + more)
  {
    hide RowAt;
  }

  lemma ConnGrown(start: Catalog, conn: Conn, issued: seq<(string, nat)>, more: seq<(string, nat)>)
    requires ConnIssued(start, conn, issued)
    ensures ConnIssued(start, conn, issued + more)
  {
    hide FromIssued;
    if conn.tx.Some? { Grown(start, conn.tx.value.staged, issued, more); }
  }

  lemma SameRowsIssued(start: Catalog, c: Catalog, d: Catalog, issued: seq<(string, nat)>)
    requires FromIssued(start, c, issued) && SameButNext(c, d)
    ensures FromIssued(start, d, issued)
  {
    forall n: string, id: nat ensures RowAt(d, n, id) == RowAt(c, n, id) { SameButNextRows(c, d, n, id); }
  }

  lemma ExecIssued(start: Catalog, c: Catalog, s: Statement, issued: seq<(string, nat)>, env: Env)
    requires FromIssued(start, c, issued)
    requires s.Insert? && s.table in c && s.table in Exec(c, s, env).0 &&
             c[s.table].nextRowId < Exec(c, s, env).0[s.table].nextRowId ==>
               (s.table, c[s.table].nextRowId) in issued
    ensures FromIssued(start, Exec(c, s, env).0, issued)
  {
    hide Exec;
    var d := Exec(c, s, env).0;
    forall n: string, id: nat | RowAt(d, n, id).Some? && RowAt(c, n, id).None? ensures (n, id) in issued {
      ExecAdds(c, s, env, n, id);
    }
  }

  /** Locking keeps the rows, and reserves what it has to. */
  lemma StageIssued(start: Catalog, sh: Shared, nextTx: nat, tx: Tx, s: Statement, issued: seq<(string, nat)>, env: Env)
    requires TxOk(sh, nextTx, tx, env)
    requires FromIssued(start, sh.catalog, issued) && FromIssued(start, tx.staged, issued)
    ensures var st := Stage(sh, tx, s, env);
            var all := issued + IssuedBy(sh, st.shared, DoLock(s));
            && FromIssued(start, st.shared.catalog, all) && FromIssued(start, st.tx.staged, all)
            && (st.ok && s.Insert? && s.table in st.tx.staged ==> (s.table, st.tx.staged[s.table].nextRowId) in all)
  {
    hide Stage, FromIssued, TxOk;
    var st := Stage(sh, tx, s, env);
    var added := IssuedBy(sh, st.shared, DoLock(s));
    StageQuiet(sh, tx, s, env);
    StageReserves(sh, nextTx, tx, s, env);
    SameRowsIssued(start, sh.catalog, st.shared.catalog, issued);
    SameRowsIssued(start, tx.staged, st.tx.staged, issued);
    Grown(start, st.shared.catalog, issued, added);
    Grown(start, st.tx.staged, issued, added);
    assert forall x :: x in added ==> x in issued + added;
  }

  lemma StageReserves(sh: Shared, nextTx: nat, tx: Tx, s: Statement, env: Env)
    requires TxOk(sh, nextTx, tx, env)
    ensures var st := Stage(sh, tx, s, env);
            && SameButNext(tx.staged, st.tx.staged)
            && (st.ok && s.Insert? && s.table in st.tx.staged ==>
                  (s.table, st.tx.staged[s.table].nextRowId) in IssuedBy(sh, st.shared, DoLock(s)))
  {
    hide KeysToLock, LockAll, RowKey, CatalogSound, Owns, KnownKeys, Covers, SameSchemas;
  }

  /** A step keeps the rows of the committed and of its own staged catalog to issued ids. */
  lemma LocalIssued(start: Catalog, sh: Shared, nextTx: nat, conn: Conn, a: Action, issued: seq<(string, nat)>,
                    env: Env)
    requires Enabled(conn, a) && ConnOk(sh, nextTx, conn, env)
    requires FromIssued(start, sh.catalog, issued) && ConnIssued(start, conn, issued)
    ensures var l := LocalStep(sh, nextTx, conn, a, env);
            var all := issued + IssuedBy(sh, l.shared, a);
            FromIssued(start, l.shared.catalog, all) && ConnIssued(start, l.conn, all)
  {
    hide FromIssued, TxOk, Exec, EncodeCatalog, CommitTx, Stage, Touched, CatalogSound;
    var l := LocalStep(sh, nextTx, conn, a, env);
    var added := IssuedBy(sh, l.shared, a);
    var all := issued + added;
    Grown(start, sh.catalog, issued, added);
    ConnGrown(start, conn, issued, added);
    match a
    case DoLock(s) => StageIssued(start, sh, nextTx, conn.tx.value, s, issued, env);
    case DoExecute => ExecIssued(start, conn.tx.value.staged, conn.pending.statement, all, env);
    case DoCommit(ok) => if conn.tx.Some? { CommitIssued(start, sh, nextTx, conn.tx.value, ok, all, env); }
    case DoAuto(s, ok) => AutoIssued(start, sh, s, ok, a, issued, env);
    case DoDdl(ok) => ExecIssued(start, sh.catalog, conn.pending.statement, all, env);
    case _ =>
  }

  lemma AutoIssued(start: Catalog, sh: Shared, s: Statement, ok: bool, a: Action, issued: seq<(string, nat)>, env: Env)
    requires FromIssued(start, sh.catalog, issued) && a == DoAuto(s, ok)
    ensures var after := AutoCommit(sh, s, ok, env).0;
            FromIssued(start, after.catalog, issued + IssuedBy(sh, after, a))
  {
    hide FromIssued, Exec, EncodeCatalog;
    var after := AutoCommit(sh, s, ok, env).0;
    var added := IssuedBy(sh, after, a);
    Grown(start, sh.catalog, issued, added);
    if after.catalog != sh.catalog {
      if added != [] { assert added[0] in issued + added; }
      ExecIssued(start, sh.catalog, s, issued + added, env);
    }
  }

  lemma CommitIssued(start: Catalog, sh: Shared, nextTx: nat, tx: Tx, ok: bool, issued: seq<(string, nat)>, env: Env)
    requires TxOk(sh, nextTx, tx, env)
    requires FromIssued(start, sh.catalog, issued) && FromIssued(start, tx.staged, issued)
    ensures FromIssued(start, CommitTx(sh, tx, ok, env).0.catalog, issued)
  {
    hide RowKey, TxOk, CommitTx, SameButRows, RowAt;
    CommitRows(sh, nextTx, tx, ok, env);
  }

  lemma StepIssued(start: Catalog, p: Pool, e: P.Event, env: Env)
    requires PoolOk(p, env) && AllIssued(start, p)
    ensures AllIssued(start, P.Step(p, e, env))
  {
    hide LocalStep, FromIssued, ConnIssued, SharedOk, ConnOk, IssuedOk, IssuedBy;
    match e
    case Connect(c) => NewIssued(start, p.issued);
    case Act(c, a) =>
      if c in p.conns && Enabled(p.conns[c], a) {
        var l := LocalStep(p.shared, p.nextTx, p.conns[c], a, env);
        var added := IssuedBy(p.shared, l.shared, a);
        LocalIssued(start, p.shared, p.nextTx, p.conns[c], a, p.issued, env);
        forall d | d in p.conns ensures ConnIssued(start, p.conns[d], p.issued + added) {
          ConnGrown(start, p.conns[d], p.issued, added);
        }
      }
  }

  lemma NewIssued(start: Catalog, issued: seq<(string, nat)>)
    ensures ConnIssued(start, Conn(None, Nothing), issued)
  {}

  /** Over every run, each row that is committed or staged anywhere, and was not there from the start, has an id
      that some reservation or autocommitted INSERT of the run took off its table; and no id was taken twice. */
  lemma {:induction false} RowsHaveIssuedIds(c: Catalog, path: bool, disk: string, events: seq<P.Event>, env: Env)
    requires CatalogSound(c, env)
    ensures var p := P.Run(P.Start(c, path, disk), events, env);
            && AllIssued(c, p)
            && forall i, j :: 0 <= i < j < |p.issued| ==> p.issued[i] != p.issued[j]
  {
    hide P.Step, CatalogSound, SharedOk, ConnOk, DistinctTx, AllIssued;
    StartOk(c, path, disk, env);
    RunOk(P.Start(c, path, disk), events, env);
    if events == [] {
      StartIssued(c, path, disk);
    } else {
      var n := |events| - 1;
      RowsHaveIssuedIds(c, path, disk, events[..n], env);
      RunOk(P.Start(c, path, disk), events[..n], env);
      StepIssued(c, P.Run(P.Start(c, path, disk), events[..n], env), events[n], env);
    }
  }

  lemma StartIssued(c: Catalog, path: bool, disk: string)
    ensures AllIssued(c, P.Start(c, path, disk))
  {}
}
