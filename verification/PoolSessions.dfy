/** What one connection of the pool sees and is told: inside a transaction and outside one it is in front of the
    single-connection engine, on the snapshot its transaction began with, until it commits. */
module PoolSessions {
  import opened Basics
  import opened Values
  import opened Ast
  import opened Tables
  import opened Catalogs
  import opened Engine
  import opened TableFacts
  import opened AccessPaths
  import opened TableMeaning
  import D = Databases
  import opened LockKeys
  import opened Merge
  import P = Pools
  import opened Pools
  import opened PoolFacts
  import opened PoolLaws
  import opened PoolCommits
  import opened Filters
  import opened Answers
  import opened InsertLocks

  // ---------------------------------------------------------------- in front of the single-connection engine

  /** The database of the single-connection engine that a connection has before it. */
  function View(sh: Shared, conn: Conn): D.Db {
    D.Db(sh.catalog, if conn.tx.Some? then Some(conn.tx.value.staged) else None, sh.path, sh.disk)
  }

  /** The step has the effect and the outcome of the engine's. */
  predicate Alike(l: Local, step: (D.Db, Outcome)) { View(l.shared, l.conn) == step.0 && l.result == Some(step.1) }

  /** BEGIN, ROLLBACK, a definition, a change outside a transaction, and any statement inside one (once its rows are
      locked) do to the connection's view, and answer, what the single-connection engine does. So does a COMMIT
      without a transaction. A SELECT outside a transaction differs in one thing: it fails when the file cannot be
      written. The pool has no EXPLAIN. */
  lemma SeesEngine(sh: Shared, nextTx: nat, conn: Conn, a: Action, env: Env)
    requires Enabled(conn, a) && ConnOk(sh, nextTx, conn, env)
    ensures var (l, db) := (LocalStep(sh, nextTx, conn, a, env), View(sh, conn));
            match a
            case DoBegin => Alike(l, D.Step(db, Begin, true, env))
            case DoRollback => Alike(l, D.Step(db, Rollback, true, env))
            case DoCommit(ok) => conn.tx.None? ==> Alike(l, D.Step(db, Commit, ok, env))
            case DoExecute =>
              var s := conn.pending.statement;
              if s.Explain? then View(l.shared, l.conn) == db && l.result == Some(Err(Execution))
              else forall ok :: Alike(l, D.Step(db, s, ok, env))
            case DoDdl(ok) => Alike(l, D.Step(db, conn.pending.statement, ok, env))
            case DoAuto(s, ok) =>
              if MutatesCatalog(s) then Alike(l, D.Step(db, s, ok, env))
              else
                && l.shared.catalog == db.catalog && l.conn == conn
                && (s.Explain? ==> l.result == Some(Err(Execution)))
                && (!s.Explain? ==>
                      var r := D.Step(db, s, ok, env).1;
                      l.result == Some(if r.Ok? && sh.path && !ok then Err(Io) else r))
            case DoDrop => View(l.shared, l.conn) == D.Step(db, Rollback, true, env).0
            case DoDdlCheck(_) => View(l.shared, l.conn) == db
            case DoLock(_) => l.shared.disk == sh.disk && (l.result.Some? <==> l.conn.pending.Nothing?)
  {
    hide Exec, EncodeCatalog, MergeCatalogs, Stage, TxOk, Touched;
    match a
    case DoAuto(s, _) =>
      if !MutatesCatalog(s) { ReadersChangeNothing(sh.catalog, s, env); }
      if s.Explain? { UnknownTable(sh.catalog, s, env); }
    case DoExecute =>
      if conn.pending.statement.Explain? { UnknownTable(conn.tx.value.staged, conn.pending.statement, env); }
    case DoLock(s) => StageKeepsFile(sh, conn.tx.value, s, env);
    case _ =>
  }

  lemma StageKeepsFile(sh: Shared, tx: Tx, s: Statement, env: Env)
    ensures Stage(sh, tx, s, env).shared.disk == sh.disk && Stage(sh, tx, s, env).shared.path == sh.path
  {
    hide KeysToLock, LockAll, RowKey;
  }

  /** A transaction begins with the committed catalog, without locks, and under an id no other transaction has. */
  lemma BeginMeans(p: Pool, c: nat, env: Env)
    requires PoolOk(p, env) && c in p.conns && Enabled(p.conns[c], DoBegin) && p.conns[c].tx.None?
    ensures var q := P.Step(p, Act(c, DoBegin), env);
            && Active(q, c) && q.shared == p.shared
            && var tx := q.conns[c].tx.value;
               && tx.staged == tx.begun == p.shared.catalog && tx.locked == {}
               && forall d :: Active(p, d) ==> p.conns[d].tx.value.id < tx.id
  {
    hide SharedOk, IssuedOk, TxOk;
    forall d | Active(p, d) ensures p.conns[d].tx.value.id < p.nextTx { TxBelow(p.shared, p.nextTx, p.conns[d], env); }
  }

  // ---------------------------------------------------------------- nobody else shows

  ghost predicate NotBy(c: nat, events: seq<P.Event>) {
    forall i :: 0 <= i < |events| ==> !(events[i].Act? && events[i].c == c)
  }

  lemma {:induction false} OthersDoNotShow(p: Pool, c: nat, events: seq<P.Event>, env: Env)
    requires c in p.conns && NotBy(c, events)
    ensures c in P.Run(p, events, env).conns && P.Run(p, events, env).conns[c] == p.conns[c]
  {
    hide LocalStep;
    if events != [] { OthersDoNotShow(p, c, events[..|events| - 1], env); }
  }

  /** Inside a transaction a SELECT is never refused, takes no lock, and answers the same whatever other connections
      have done, and committed, since: what the single-connection engine answers on the staged catalog. */
  lemma RepeatableRead(p: Pool, c: nat, events: seq<P.Event>, s: Statement, env: Env)
    requires PoolOk(p, env) && Active(p, c) && p.conns[c].pending.Nothing? && s.Select? && NotBy(c, events)
    ensures var q := P.Run(p, events, env);
            && c in q.conns && Enabled(q.conns[c], DoLock(s))
            && var locked := LocalStep(q.shared, q.nextTx, q.conns[c], DoLock(s), env);
               && locked == Local(q.shared, q.nextTx, Conn(p.conns[c].tx, Execute(s)), None)
               && Enabled(locked.conn, DoExecute)
               && var done := LocalStep(locked.shared, locked.nextTx, locked.conn, DoExecute, env);
                  && done.shared == q.shared && done.conn == p.conns[c]
                  && done.result == Some(D.Step(View(p.shared, p.conns[c]), s, true, env).1)
  {
    hide Exec, PoolOk;
    OthersDoNotShow(p, c, events, env);
    ReadersChangeNothing(p.conns[c].tx.value.staged, s, env);
  }

  // ---------------------------------------------------------------- row locks

  /** The selected rows that another transaction has locked, or left locked. */
  ghost function Contested(sh: Shared, tx: Tx, s: Statement, env: Env): set<nat>
    requires (s.Update? || s.Delete?) && s.table in tx.staged
  {
    set id | id in Wanted(tx.staged[s.table], s.filter, env) && RowKey(s.table, id) in sh.locks &&
             sh.locks[RowKey(s.table, id)] != tx.id
  }

  ghost function KeysOf(n: string, ids: set<nat>): set<string> { set id | id in ids :: RowKey(n, id) }

  /** The rows an UPDATE or DELETE locks: all it selects, or those before the first contested one. */
  ghost function LockedBy(sh: Shared, tx: Tx, s: Statement, env: Env): set<nat>
    requires (s.Update? || s.Delete?) && s.table in tx.staged
  {
    set id | id in Wanted(tx.staged[s.table], s.filter, env) &&
             forall other :: other in Contested(sh, tx, s, env) ==> id < other
  }

  /** Inside a transaction a statement first locks: let through, it waits to be executed and the client is told
      nothing yet; refused, the client is told so and the transaction goes on. */
  lemma LockStep(sh: Shared, nextTx: nat, tx: Tx, s: Statement, env: Env)
    requires !IsControl(s) && !IsDdl(s)
    ensures var st := Stage(sh, tx, s, env);
            LocalStep(sh, nextTx, Conn(Some(tx), Nothing), DoLock(s), env) ==
            Local(st.shared, nextTx, Conn(Some(st.tx), if st.ok then Execute(s) else Nothing),
                  if st.ok then None else Some(Err(Execution)))
  {
    hide Stage, AutoCommit, CommitTx, Release;
  }

  /** An UPDATE or DELETE inside a transaction is let through if and only if its filter is accepted and no other
      transaction holds a row it selects, and then it holds these rows and no more; refused, it keeps the ones
      before the first contested row. Nothing else changes. */
  lemma RowLocksIff(sh: Shared, nextTx: nat, tx: Tx, s: Statement, env: Env)
    requires TxOk(sh, nextTx, tx, env) && (s.Update? || s.Delete?) && s.table in tx.staged
    ensures var st := Stage(sh, tx, s, env);
            var taken := if !Accepts(tx.staged[s.table], s.filter, env) then {}
                         else KeysOf(s.table, LockedBy(sh, tx, s, env));
            && (st.ok <==> Accepts(tx.staged[s.table], s.filter, env) && Contested(sh, tx, s, env) == {})
            && st.tx == tx.(locked := tx.locked + taken)
            && st.shared == sh.(locks := st.shared.locks)
            && st.shared.locks.Keys == sh.locks.Keys + taken
            && forall k :: k in st.shared.locks ==> st.shared.locks[k] == if k in taken then tx.id else sh.locks[k]
  {
    hide Accepts, Wanted, KeysOf, Contested, LockedBy, TxOk, Stage, Given, Blocked, Before, LockAll, RowKeys, Ascending;
    RowsAsked(sh, nextTx, tx, s, env);
    if Accepts(tx.staged[s.table], s.filter, env) {
      var ids := Ascending(Wanted(tx.staged[s.table], s.filter, env));
      LockRows(sh.locks, tx.locked, tx.id, s.table, ids);
      SameBlocked(sh, tx, s, env);
      GivenTo(sh.locks, KeysOf(s.table, LockedBy(sh, tx, s, env)), tx.id);
    } else {
      assert tx.locked + {} == tx.locked && sh.locks.Keys + {} == sh.locks.Keys;
    }
  }

  lemma GivenTo(locks: map<string, nat>, keys: set<string>, id: nat)
    ensures Given(locks, keys, id).Keys == locks.Keys + keys
    ensures forall k :: k in Given(locks, keys, id) ==> Given(locks, keys, id)[k] == if k in keys then id else locks[k]
  {}

  lemma SameBlocked(sh: Shared, tx: Tx, s: Statement, env: Env)
    requires (s.Update? || s.Delete?) && s.table in tx.staged
    ensures var ids := Ascending(Wanted(tx.staged[s.table], s.filter, env));
            && Blocked(sh.locks, tx.id, s.table, ids) == Contested(sh, tx, s, env)
            && Before(sh.locks, tx.id, s.table, ids) == LockedBy(sh, tx, s, env)
  {
    hide RowKey, Wanted;
    var ids := Ascending(Wanted(tx.staged[s.table], s.filter, env));
    assert Blocked(sh.locks, tx.id, s.table, ids) == Contested(sh, tx, s, env);
  }

  /** An UPDATE or DELETE asks for the keys of exactly the rows it selects, in ascending order. */
  lemma RowsAsked(sh: Shared, nextTx: nat, tx: Tx, s: Statement, env: Env)
    requires TxOk(sh, nextTx, tx, env) && (s.Update? || s.Delete?) && s.table in tx.staged
    ensures var st := Stage(sh, tx, s, env);
            if Accepts(tx.staged[s.table], s.filter, env) then
              var keys := RowKeys(s.table, Ascending(Wanted(tx.staged[s.table], s.filter, env)));
              var l := LockAll(sh.locks, tx.locked, tx.id, keys);
              st == Staging(sh.(locks := l.locks), tx.(locked := l.locked), l.ok)
            else st == Staging(sh, tx, false)
  {
    hide RowKey, Accepts, Wanted, Sound, Matching, Ascending, LockAll, Owns, KnownKeys, Covers, SameSchemas, Follows,
         RowKeys;
    FilterMeans(tx.staged[s.table], s.filter, env);
  }

  /** Locking rows one by one, in ascending order. */
  lemma {:induction false} LockRows(locks: map<string, nat>, locked: set<string>, id: nat, n: string, ids: seq<nat>)
    requires StrictlyAscending(ids)
    ensures var l := LockAll(locks, locked, id, RowKeys(n, ids));
            && l.ok == (Blocked(locks, id, n, ids) == {})
            && l.locked == locked + KeysOf(n, Before(locks, id, n, ids))
            && l.locks == Given(locks, KeysOf(n, Before(locks, id, n, ids)), id)
    decreases |ids|
  {
    hide RowKey, KeysOf, Blocked, Before;
    var keys := RowKeys(n, ids);
    if ids == [] {
      NoneTaken(locks, id, n);
      assert Given(locks, {}, id) == locks;
    } else {
      var next := locks[keys[0] := id];
      assert keys[1..] == RowKeys(n, ids[1..]);
      FirstTaken(locks, id, n, ids);
      if !(keys[0] in locks && locks[keys[0]] != id) {
        LockRows(next, locked + {keys[0]}, id, n, ids[1..]);
        var rest := KeysOf(n, Before(next, id, n, ids[1..]));
        assert locked + {keys[0]} + rest == locked + ({keys[0]} + rest);
        assert Given(next, rest, id) == Given(locks, {keys[0]} + rest, id);
      } else {
        assert Given(locks, {}, id) == locks;
      }
    }
  }

  function Given(locks: map<string, nat>, keys: set<string>, id: nat): map<string, nat> {
    map k | k in locks.Keys + keys :: if k in keys then id else locks[k]
  }

  ghost function Blocked(locks: map<string, nat>, id: nat, n: string, ids: seq<nat>): set<nat> {
    set i | i in ids && RowKey(n, i) in locks && locks[RowKey(n, i)] != id
  }

  ghost function Before(locks: map<string, nat>, id: nat, n: string, ids: seq<nat>): set<nat> {
    set i | i in ids && forall j :: j in Blocked(locks, id, n, ids) ==> i < j
  }

  lemma NoneTaken(locks: map<string, nat>, id: nat, n: string)
    ensures Blocked(locks, id, n, []) == {} && KeysOf(n, Before(locks, id, n, [])) == {}
  {}

  lemma FirstTaken(locks: map<string, nat>, id: nat, n: string, ids: seq<nat>)
    requires StrictlyAscending(ids) && ids != []
    ensures var key := RowKey(n, ids[0]);
            if key in locks && locks[key] != id
            then Blocked(locks, id, n, ids) != {} && KeysOf(n, Before(locks, id, n, ids)) == {}
            else
              var next := locks[key := id];
              && Blocked(locks, id, n, ids) == Blocked(next, id, n, ids[1..])
              && KeysOf(n, Before(locks, id, n, ids)) == {key} + KeysOf(n, Before(next, id, n, ids[1..]))
  {
    hide RowKey;
    var key := RowKey(n, ids[0]);
    var next := locks[key := id];
    assert forall i :: i in ids ==> ids[0] <= i;
    assert forall i :: i in ids <==> i == ids[0] || i in ids[1..];
    forall i | i in ids[1..] ensures RowKey(n, i) != key {
      if RowKey(n, i) == key { RowKeyInjective(n, i, n, ids[0]); }
    }
    if key in locks && locks[key] != id {
      assert ids[0] in Blocked(locks, id, n, ids);
      assert Before(locks, id, n, ids) == {};
    } else {
      assert ids[0] !in Blocked(locks, id, n, ids);
      assert Blocked(locks, id, n, ids) == Blocked(next, id, n, ids[1..]);
      assert forall j :: j in Blocked(locks, id, n, ids) ==> ids[0] < j;
      assert Before(locks, id, n, ids) == {ids[0]} + Before(next, id, n, ids[1..]);
    }
  }

  // ---------------------------------------------------------------- a commit nobody disturbed

  /** When the committed rows are still those the transaction began with, a successful COMMIT makes every committed
      row the staged one, as COMMIT does in the single-connection engine. */
  lemma UndisturbedCommit(p: Pool, c: nat, ok: bool, env: Env)
    requires Reachable(p, env) && Active(p, c)
    requires CommitTx(p.shared, p.conns[c].tx.value, ok, env).1.Ok?
    requires forall n: string, id: nat ::
               RowAt(p.shared.catalog, n, id) == RowAt(p.conns[c].tx.value.begun, n, id)
    ensures forall n: string, id: nat ::
              RowAt(CommitTx(p.shared, p.conns[c].tx.value, ok, env).0.catalog, n, id) ==
              RowAt(p.conns[c].tx.value.staged, n, id)
  {
    hide RowKey, SharedOk, PoolOk, CommitTx, SameButRows, RowAt, Reachable, CatalogSound, Follows, Owns, KnownKeys,
         SameSchemas;
    ReachableOk(p, env);
    ActiveOk(p, c, env);
    CommitRows(p.shared, p.nextTx, p.conns[c].tx.value, ok, env);
  }
}
