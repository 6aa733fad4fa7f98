/** The connection pool (`pool.rs`) as a machine of steps. Each step is one section that holds the mutex on the
    shared database, or the local execution between two of them; any interleaving of the connections' steps is
    a run. */
module Pools {
  import opened Basics
  import opened Values
  import opened Text
  import opened Codec
  import opened Ast
  import opened Tables
  import opened Catalogs
  import opened Engine
  import opened LockKeys
  import opened Merge

  // ---------------------------------------------------------------- state

  /** `begun` is a history variable: the snapshot BEGIN took. */
  datatype Tx = Tx(id: nat, staged: Catalog, locked: set<string>, begun: Catalog)

  datatype Shared = Shared(catalog: Catalog, locks: map<string, nat>, path: bool, disk: string)

  /** What a connection is in the middle of: nothing, a statement whose rows are locked but which has not run on
      the staged catalog yet, or a definition that has passed the lock table check. */
  datatype Pending = Nothing | Execute(statement: Statement) | Define(statement: Statement)

  datatype Conn = Conn(tx: Option<Tx>, pending: Pending)

  // ---------------------------------------------------------------- statements

  predicate IsControl(s: Statement) { s.Begin? || s.Commit? || s.Rollback? }

  predicate IsDdl(s: Statement) { s.CreateTable? || s.CreateIndex? }

  /** The first value given for a column, by its literal name. */
  function ValueFor(targets: seq<string>, values: seq<Value>, column: string): Option<Value> {
    if targets == [] || values == [] then None
    else if targets[0] == column then Some(values[0])
    else ValueFor(targets[1..], values[1..], column)
  }

  /** `insert_lock_key`. */
  function InsertKey(t: Table, s: Statement): Result<string, Error>
    requires s.Insert?
  {
    match if t.primaryKey.Some? then ValueFor(Targets(t, s.targets), s.values, t.primaryKey.value) else None
    case None => Ok("insert:" + s.table + ":next:" + Decimal(t.nextRowId))
    case Some(v) =>
      match IndexKey(v)
      case Err(e) => Err(e)
      case Ok(key) => Ok("insert:" + s.table + ":" + key)
  }

  function RowKeys(table: string, ids: seq<nat>): (keys: seq<string>)
    ensures |keys| == |ids| && forall i :: 0 <= i < |ids| ==> keys[i] == RowKey(table, ids[i])
  {
    seq(|ids|, i requires 0 <= i < |ids| => RowKey(table, ids[i]))
  }

  /** `rows_to_lock`. */
  function KeysToLock(staged: Catalog, s: Statement, env: Env): Result<seq<string>, Error> {
    if s.Update? || s.Delete? then
      if s.table !in staged then Err(Execution) else
        match Matching(staged[s.table], s.filter, env)
        case Err(e) => Err(e)
        case Ok(ids) => Ok(RowKeys(s.table, ids))
    else if s.Insert? then
      if s.table !in staged then Err(Execution) else
        match InsertKey(staged[s.table], s)
        case Err(e) => Err(e)
        case Ok(key) => Ok([key])
    else Ok([])
  }

  // ---------------------------------------------------------------- locking

  datatype Locking = Locking(locks: map<string, nat>, locked: set<string>, ok: bool)

  /** Take the keys one by one; a key held by another transaction stops the rest, and those taken are kept. */
  function LockAll(locks: map<string, nat>, locked: set<string>, id: nat, keys: seq<string>): Locking
    decreases keys
  {
    if keys == [] then Locking(locks, locked, true)
    else if keys[0] in locks && locks[keys[0]] != id then Locking(locks, locked, false)
    else LockAll(locks[keys[0] := id], locked + {keys[0]}, id, keys[1..])
  }

  datatype Staging = Staging(shared: Shared, tx: Tx, ok: bool)

  /** `reserve_insert_row_id`: the id comes off the committed table, and its key is written unconditionally. */
  function Reserve(sh: Shared, tx: Tx, s: Statement): Staging {
    if !s.Insert? then Staging(sh, tx, true)
    else if s.table !in sh.catalog then Staging(sh, tx, false)
    else
      var reserved := sh.catalog[s.table].nextRowId;
      var next := sh.(catalog := sh.catalog[s.table := sh.catalog[s.table].(nextRowId := reserved + 1)]);
      if s.table !in tx.staged then Staging(next, tx, false)
      else
        var key := RowKey(s.table, reserved);
        var t := tx.staged[s.table];
        Staging(next.(locks := next.locks[key := tx.id]),
                tx.(staged := tx.staged[s.table := t.(nextRowId := Max(t.nextRowId, reserved))],
                    locked := tx.locked + {key}),
                true)
  }

  /** `lock_statement_rows`. */
  function Stage(sh: Shared, tx: Tx, s: Statement, env: Env): Staging {
    match KeysToLock(tx.staged, s, env)
    case Err(_) => Staging(sh, tx, false)
    case Ok(keys) =>
      var l := LockAll(sh.locks, tx.locked, tx.id, keys);
      var sh1, tx1 := sh.(locks := l.locks), tx.(locked := l.locked);
      if l.ok then Reserve(sh1, tx1, s) else Staging(sh1, tx1, false)
  }

  /** `release_locks`: only entries that still name this transaction go. */
  function Release(locks: map<string, nat>, tx: Tx): map<string, nat> {
    map k | k in locks && !(k in tx.locked && locks[k] == tx.id) :: locks[k]
  }

  // ---------------------------------------------------------------- publishing

  function Write(sh: Shared, c: Catalog): Shared {
    sh.(catalog := c, disk := if sh.path then EncodeCatalog(c) else sh.disk)
  }

  /** The locked part of `commit`: a failed merge leaves the locks behind, a failed write does not. */
  ghost function CommitTx(sh: Shared, tx: Tx, ok: bool, env: Env): (Shared, Outcome) {
    match MergeCatalogs(sh.catalog, tx.staged, tx.locked, env)
    case Err(e) => (sh, Err(e))
    case Ok(merged) =>
      if CanWrite(sh.path, ok) then (Write(sh, merged).(locks := Release(sh.locks, tx)), Ok(Message))
      else (sh.(locks := Release(sh.locks, tx)), Err(Io))
  }

  /** Outside a transaction: run on the committed catalog and write it, or put everything back. */
  function AutoCommit(sh: Shared, s: Statement, ok: bool, env: Env): (Shared, Outcome) {
    var (c, r) := Exec(sh.catalog, s, env);
    if r.Err? then (sh, r)
    else if CanWrite(sh.path, ok) then (Write(sh, c), r)
    else (sh, Err(Io))
  }

  // ---------------------------------------------------------------- steps of one connection

  /** `ok` says whether writing the file would succeed. */
  datatype Action =
    | DoBegin
    | DoLock(s: Statement)
    | DoExecute
    | DoCommit(ok: bool)
    | DoRollback
    | DoAuto(s: Statement, ok: bool)
    | DoDdlCheck(s: Statement)
    | DoDdl(ok: bool)
    | DoDrop

  /** The state after a step; `result` is what the client is told, if the statement has ended. */
  datatype Local = Local(shared: Shared, nextTx: nat, conn: Conn, result: Option<Outcome>)

  predicate Enabled(conn: Conn, a: Action) {
    match a
    case DoExecute => conn.tx.Some? && conn.pending.Execute?
    case DoDdl(_) => conn.pending.Define?
    case DoLock(s) => conn.pending.Nothing? && conn.tx.Some? && !IsControl(s) && !IsDdl(s)
    case DoAuto(s, _) => conn.pending.Nothing? && conn.tx.None? && !IsControl(s) && !IsDdl(s)
    case DoDdlCheck(s) => conn.pending.Nothing? && IsDdl(s)
    case _ => conn.pending.Nothing?
  }

  ghost function LocalStep(sh: Shared, nextTx: nat, conn: Conn, a: Action, env: Env): Local
    requires Enabled(conn, a)
  {
    match a
    case DoBegin =>
      if conn.tx.Some? then Local(sh, nextTx, conn, Some(Err(Execution)))
      else Local(sh, nextTx + 1, conn.(tx := Some(Tx(nextTx, sh.catalog, {}, sh.catalog))), Some(Ok(Message)))
    case DoLock(s) =>
      var st := Stage(sh, conn.tx.value, s, env);
      if st.ok then Local(st.shared, nextTx, Conn(Some(st.tx), Execute(s)), None)
      else Local(st.shared, nextTx, Conn(Some(st.tx), Nothing), Some(Err(Execution)))
    case DoExecute =>
      var (c, r) := Exec(conn.tx.value.staged, conn.pending.statement, env);
      Local(sh, nextTx, Conn(Some(conn.tx.value.(staged := c)), Nothing), Some(r))
    case DoCommit(ok) =>
      if conn.tx.None? then Local(sh, nextTx, conn, Some(Err(Execution))) else
        var (after, r) := CommitTx(sh, conn.tx.value, ok, env);
        Local(after, nextTx, Conn(None, Nothing), Some(r))
    case DoRollback =>
      if conn.tx.None? then Local(sh, nextTx, conn, Some(Err(Execution)))
      else Local(sh.(locks := Release(sh.locks, conn.tx.value)), nextTx, Conn(None, Nothing), Some(Ok(Message)))
    case DoAuto(s, ok) =>
      var (after, r) := AutoCommit(sh, s, ok, env);
      Local(after, nextTx, conn, Some(r))
    case DoDdlCheck(s) =>
      if conn.tx.Some? || sh.locks != map[] then Local(sh, nextTx, conn, Some(Err(Execution)))
      else Local(sh, nextTx, conn.(pending := Define(s)), None)
    case DoDdl(ok) =>
      var (after, r) := AutoCommit(sh, conn.pending.statement, ok, env);
      Local(after, nextTx, conn.(pending := Nothing), Some(r))
    case DoDrop =>
      if conn.tx.None? then Local(sh, nextTx, conn, None)
      else Local(sh.(locks := Release(sh.locks, conn.tx.value)), nextTx, Conn(None, Nothing), None)
  }

  // ---------------------------------------------------------------- all connections

  /** `issued` is a history variable: the row ids handed out by reservations and autocommitted inserts. */
  datatype Pool = Pool(shared: Shared, nextTx: nat, conns: map<nat, Conn>, issued: seq<(string, nat)>)

  datatype Event = Connect(c: nat) | Act(c: nat, action: Action)

  /** The row id a step took off a committed table. */
  function IssuedBy(before: Shared, after: Shared, a: Action): seq<(string, nat)> {
    if (a.DoLock? || a.DoAuto?) && a.s.Insert? && a.s.table in before.catalog && a.s.table in after.catalog
       && before.catalog[a.s.table].nextRowId < after.catalog[a.s.table].nextRowId
    then [(a.s.table, before.catalog[a.s.table].nextRowId)]
    else []
  }

  ghost function Step(p: Pool, e: Event, env: Env): Pool {
    match e
    case Connect(c) => if c in p.conns then p else p.(conns := p.conns[c := Conn(None, Nothing)])
    case Act(c, a) =>
      if c !in p.conns || !Enabled(p.conns[c], a) then p else
        var l := LocalStep(p.shared, p.nextTx, p.conns[c], a, env);
        Pool(l.shared, l.nextTx, if a.DoDrop? then p.conns - {c} else p.conns[c := l.conn],
             p.issued + IssuedBy(p.shared, l.shared, a))
  }

  ghost function Run(p: Pool, events: seq<Event>, env: Env): Pool {
    if events == [] then p else Step(Run(p, events[..|events| - 1], env), events[|events| - 1], env)
  }

  /** The pool over a freshly opened database. */
  function Start(c: Catalog, path: bool, disk: string): Pool {
    Pool(Shared(c, map[], path, disk), 1, map[], [])
  }

  // ---------------------------------------------------------------- observations

  function RowAt(c: Catalog, n: string, id: nat): Option<Row> {
    if n in c && id in c[n].rows then Some(c[n].rows[id]) else None
  }
}
