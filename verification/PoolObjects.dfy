/** The pool's objects as they are in `pool.rs`: shared state behind one mutex, and connections that own a
    transaction. Each method is one or two of the steps of `Pools`, carried out in place. */
module PoolObjects {
  import opened Basics
  import opened Values
  import opened Text
  import opened Codec
  import opened Ast
  import opened Tables
  import opened Catalogs
  import opened Engine
  import opened Databases
  import opened LockKeys
  import opened Merge
  import opened Pools
  import opened PoolFacts

  class PoolInner {
    var catalog: Catalog
    var locks: map<string, nat>
    const path: bool
    var disk: string
    var nextTx: nat

    function Value(): Shared
      reads this
    {
      Shared(catalog, locks, path, disk)
    }

    constructor (catalog: Catalog, path: bool, disk: string)
      ensures Value() == Start(catalog, path, disk).shared && nextTx == Start(catalog, path, disk).nextTx
    {
      this.catalog, locks, this.path, this.disk, nextTx := catalog, map[], path, disk, 1;
    }

    /** `persist_catalog`: replace the whole file, or fail and leave it. */
    method Persist(ok: bool) returns (done: bool)
      modifies this`disk
      ensures done <==> CanWrite(path, ok)
      ensures Value() == if done then Write(old(Value()), catalog) else old(Value())
    {
      if !path { return true; }
      if !ok { return false; }
      disk := EncodeCatalog(catalog);
      done := true;
    }

    /** `release_locks`. */
    method ReleaseLocks(tx: Tx)
      modifies this`locks
      ensures locks == Release(old(locks), tx)
    {
      hide AscendingNames;
      var keys := AscendingNames(tx.locked);
      var i := 0;
      while i < |keys|
        invariant 0 <= i <= |keys|
        invariant forall k :: k in locks <==> k in old(locks) && !(k in keys[..i] && old(locks)[k] == tx.id)
        invariant forall k :: k in locks ==> locks[k] == old(locks)[k]
      {
        assert keys[..i + 1] == keys[..i] + [keys[i]];
        if keys[i] in locks && locks[keys[i]] == tx.id { locks := locks - {keys[i]}; }
        i := i + 1;
      }
      assert keys[..i] == keys;
    }
  }

  /** The value an INSERT gives for a column, by a walk over the target names and the values together. */
  method FindValue(targets: seq<string>, values: seq<Value>, column: string) returns (r: Option<Value>)
    ensures r == ValueFor(targets, values, column)
  {
    var i := 0;
    assert targets[0..] == targets && values[0..] == values;
    while i < |targets| && i < |values|
      invariant 0 <= i <= |targets| && i <= |values|
      invariant ValueFor(targets, values, column) == ValueFor(targets[i..], values[i..], column)
    {
      if targets[i] == column { return Some(values[i]); }
      assert targets[i..][1..] == targets[i + 1..] && values[i..][1..] == values[i + 1..];
      i := i + 1;
    }
    r := None;
  }

  /** `insert_lock_key`. */
  method FindInsertKey(t: Table, s: Statement) returns (r: Result<string, Error>)
    requires s.Insert?
    ensures r == InsertKey(t, s)
  {
    hide IndexKey, Decimal, ValueFor;
    if t.primaryKey.Some? {
      var v := FindValue(Targets(t, s.targets), s.values, t.primaryKey.value);
      if v.Some? {
        var key := IndexKey(v.value);
        if key.Err? { return Err(key.error); }
        return Ok("insert:" + s.table + ":" + key.value);
      }
    }
    r := Ok("insert:" + s.table + ":next:" + Decimal(t.nextRowId));
  }

  class Connection {
    const inner: PoolInner
    var tx: Option<Tx>

    constructor (inner: PoolInner)
      ensures this.inner == inner && tx == None
    {
      this.inner, tx := inner, None;
    }

    method Begin(env: Env) returns (r: Outcome)
      modifies this`tx, inner`nextTx
      ensures var l := LocalStep(old(inner.Value()), old(inner.nextTx), Conn(old(tx), Nothing), DoBegin, env);
              (inner.Value(), inner.nextTx, Conn(tx, Nothing), Some(r)) == (l.shared, l.nextTx, l.conn, l.result)
    {
      if tx.Some? { return Err(Execution); }
      tx := Some(Tx(inner.nextTx, inner.catalog, {}, inner.catalog));
      inner.nextTx := inner.nextTx + 1;
      r := Ok(Message);
    }

    /** The transaction is over whatever happens; a failed merge returns before the locks are released. */
    method Commit(ok: bool, env: Env) returns (r: Outcome)
      modifies this`tx, inner`catalog, inner`locks, inner`disk
      ensures var l := LocalStep(old(inner.Value()), old(inner.nextTx), Conn(old(tx), Nothing), DoCommit(ok), env);
              (inner.Value(), inner.nextTx, Conn(tx, Nothing), Some(r)) == (l.shared, l.nextTx, l.conn, l.result)
    {
      hide MergeCatalogs, EncodeCatalog, Release;
      if tx.None? { return Err(Execution); }
      var state := tx.value;
      tx := None;
      var previous := inner.catalog;
      var merged := MergeAll(inner.catalog, state.staged, state.locked, env);
      if merged.Err? { return Err(merged.error); }
      inner.catalog := merged.value;
      var done := inner.Persist(ok);
      if !done { inner.catalog := previous; }
      inner.ReleaseLocks(state);
      r := if done then Ok(Message) else Err(Io);
    }

    method Rollback(env: Env) returns (r: Outcome)
      modifies this`tx, inner`locks
      ensures var l := LocalStep(old(inner.Value()), old(inner.nextTx), Conn(old(tx), Nothing), DoRollback, env);
              (inner.Value(), inner.nextTx, Conn(tx, Nothing), Some(r)) == (l.shared, l.nextTx, l.conn, l.result)
    {
      hide Release;
      if tx.None? { return Err(Execution); }
      inner.ReleaseLocks(tx.value);
      tx := None;
      r := Ok(Message);
    }

    /** What dropping a connection does to the shared state. */
    method Drop(env: Env)
      modifies this`tx, inner`locks
      ensures var l := LocalStep(old(inner.Value()), old(inner.nextTx), Conn(old(tx), Nothing), DoDrop, env);
              (inner.Value(), inner.nextTx, Conn(tx, Nothing)) == (l.shared, l.nextTx, l.conn)
    {
      hide Release;
      if tx.Some? {
        inner.ReleaseLocks(tx.value);
        tx := None;
      }
    }

    /** `rows_to_lock`. */
    method RowsToLock(s: Statement, env: Env) returns (r: Result<seq<string>, Error>)
      requires tx.Some?
      ensures r == KeysToLock(tx.value.staged, s, env)
    {
      hide Matching, InsertKey, RowKey;
      var staged := tx.value.staged;
      if s.Update? || s.Delete? {
        if s.table !in staged { return Err(Execution); }
        var ids := Matching(staged[s.table], s.filter, env);
        if ids.Err? { return Err(ids.error); }
        return Ok(RowKeys(s.table, ids.value));
      }
      if s.Insert? {
        if s.table !in staged { return Err(Execution); }
        var key := FindInsertKey(staged[s.table], s);
        if key.Err? { return Err(key.error); }
        return Ok([key.value]);
      }
      r := Ok([]);
    }

    /** Take the keys one by one, stopping at the first that another transaction holds. */
    method LockKeysInOrder(keys: seq<string>) returns (ok: bool)
      requires tx.Some?
      modifies this`tx, inner`locks
      ensures var l := LockAll(old(inner.locks), old(tx.value.locked), old(tx.value.id), keys);
              inner.locks == l.locks && tx == Some(old(tx.value).(locked := l.locked)) && ok == l.ok
    {
      var i := 0;
      ghost var all := LockAll(inner.locks, tx.value.locked, tx.value.id, keys);
      assert keys[0..] == keys;
      while i < |keys|
        invariant 0 <= i <= |keys| && tx.Some? && tx.value == old(tx.value).(locked := tx.value.locked)
        invariant all == LockAll(inner.locks, tx.value.locked, tx.value.id, keys[i..])
      {
        var key := keys[i];
        assert keys[i..][1..] == keys[i + 1..];
        if key in inner.locks && inner.locks[key] != tx.value.id { return false; }
        inner.locks := inner.locks[key := tx.value.id];
        tx := Some(tx.value.(locked := tx.value.locked + {key}));
        i := i + 1;
      }
      ok := true;
    }

    /** `reserve_insert_row_id`. */
    method ReserveInsertRowId(s: Statement) returns (ok: bool)
      requires tx.Some?
      modifies this`tx, inner`locks, inner`catalog
      ensures tx.Some? && Staging(inner.Value(), tx.value, ok) == Reserve(old(inner.Value()), old(tx.value), s)
    {
      hide RowKey;
      if !s.Insert? { return true; }
      if s.table !in inner.catalog { return false; }
      var reserved := inner.catalog[s.table].nextRowId;
      inner.catalog := inner.catalog[s.table := inner.catalog[s.table].(nextRowId := reserved + 1)];
      if s.table !in tx.value.staged { return false; }
      var t := tx.value.staged[s.table];
      var key := RowKey(s.table, reserved);
      inner.locks := inner.locks[key := tx.value.id];
      tx := Some(tx.value.(staged := tx.value.staged[s.table := t.(nextRowId := Max(t.nextRowId, reserved))],
                           locked := tx.value.locked + {key}));
      ok := true;
    }

    /** `lock_statement_rows`. */
    method LockStatementRows(s: Statement, env: Env) returns (ok: bool)
      requires tx.Some?
      modifies this`tx, inner`locks, inner`catalog
      ensures tx.Some? && Staging(inner.Value(), tx.value, ok) == Stage(old(inner.Value()), old(tx.value), s, env)
    {
      hide KeysToLock, LockAll, Reserve;
      var keys := RowsToLock(s, env);
      if keys.Err? { return false; }
      ok := LockKeysInOrder(keys.value);
      if ok { ok := ReserveInsertRowId(s); }
    }

    /** The first mutex section of a definition: refused inside a transaction or while any lock is held. */
    method CheckDefinition(s: Statement, env: Env) returns (refused: Option<Outcome>)
      requires IsDdl(s)
      ensures var l := LocalStep(inner.Value(), inner.nextTx, Conn(tx, Nothing), DoDdlCheck(s), env);
              && refused == l.result && l.shared == inner.Value() && l.conn.tx == tx
              && (refused.None? <==> tx.None? && inner.locks == map[])
    {
      if tx.Some? { return Some(Err(Execution)); }
      if inner.locks != map[] { return Some(Err(Execution)); }
      refused := None;
    }

    /** A statement on the committed catalog, written or put back; for a definition, its second mutex section. */
    method ExecuteCommitted(s: Statement, ok: bool, env: Env) returns (r: Outcome)
      requires tx.None? && SharedOk(inner.Value(), env)
      modifies inner`catalog, inner`disk
      ensures (inner.Value(), r) == AutoCommit(old(inner.Value()), s, ok, env)
    {
      hide Exec, EncodeCatalog, CatalogSound, KeysBelow;
      var before := inner.catalog;
      inner.catalog, r := ExecuteStatement(inner.catalog, s, env);
      if r.Err? { inner.catalog := before; return; }
      var done := inner.Persist(ok);
      if !done { inner.catalog := before; return Err(Io); }
    }

    /** The local part of a statement inside a transaction, after its rows are locked. */
    method ExecuteStaged(s: Statement, env: Env) returns (r: Outcome)
      requires tx.Some? && CatalogSound(tx.value.staged, env)
      modifies this`tx
      ensures var l := LocalStep(inner.Value(), inner.nextTx, Conn(old(tx), Execute(s)), DoExecute, env);
              l.shared == inner.Value() && Conn(tx, Nothing) == l.conn && l.result == Some(r)
    {
      hide Exec, CatalogSound;
      var staged, out := ExecuteStatement(tx.value.staged, s, env);
      tx := Some(tx.value.(staged := staged));
      r := out;
    }

    /** `execute_catalog_statement`, with no other connection at work in between: inside a transaction, lock and then
        run on the staged catalog; outside one, run on the committed catalog. */
    method ExecuteCatalogStatement(s: Statement, ok: bool, env: Env) returns (r: Outcome)
      requires !IsControl(s) && SharedOk(inner.Value(), env)
      requires tx.Some? ==> TxOk(inner.Value(), inner.nextTx, tx.value, env)
      modifies this`tx, inner`catalog, inner`locks, inner`disk
      ensures IsDdl(s) && (old(tx).Some? || old(inner.locks) != map[]) ==>
                inner.Value() == old(inner.Value()) && tx == old(tx) && r.Err?
      ensures !IsDdl(s) && old(tx).Some? ==>
                var st := Stage(old(inner.Value()), old(tx.value), s, env);
                && inner.Value() == st.shared && tx.Some?
                && (tx.value, r) ==
                   if st.ok then (st.tx.(staged := Exec(st.tx.staged, s, env).0), Exec(st.tx.staged, s, env).1)
                                    else (st.tx, Err(Execution))
      ensures old(tx).None? && (IsDdl(s) ==> old(inner.locks) == map[]) ==>
                (inner.Value(), r) == AutoCommit(old(inner.Value()), s, ok, env) && tx == old(tx)
    {
      hide Stage, Exec, EncodeCatalog, CatalogSound, KnownKeys, Covers, SameSchemas, KeysBelow, Follows, Owns, Ready,
           Frame, AutoCommit;
      if IsDdl(s) {
        var refused := CheckDefinition(s, env);
        if refused.Some? { return refused.value; }
      }
      if tx.Some? {
        StageOk(inner.Value(), inner.nextTx, tx.value, s, env);
        var locked := LockStatementRows(s, env);
        if !locked { return Err(Execution); }
        r := ExecuteStaged(s, env);
      } else {
        r := ExecuteCommitted(s, ok, env);
      }
    }
  }
}
