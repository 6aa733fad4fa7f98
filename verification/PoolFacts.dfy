/** What every step of the pool keeps. */
module PoolFacts {
  import opened Basics
  import opened Values
  import opened Codec
  import opened Ast
  import opened Tables
  import opened TableFacts
  import opened Selects
  import opened AccessPaths
  import opened TableMeaning
  import opened Catalogs
  import opened Engine
  import opened LockKeys
  import opened Merge
  import opened Pools

  // ---------------------------------------------------------------- what a statement touches

  /** The row ids a statement may change in a table. */
  function Touched(t: Table, s: Statement, env: Env): set<nat> {
    if s.Insert? then {t.nextRowId}
    else if s.Update? || s.Delete? then
      match Matching(t, s.filter, env)
      case Err(_) => {}
      case Ok(ids) => set id | id in ids
    else {}
  }

  ghost predicate SameRowsBut(t: Table, u: Table, ids: set<nat>) {
    forall id :: id !in ids ==> (id in t.rows <==> id in u.rows) && (id in t.rows ==> t.rows[id] == u.rows[id])
  }

  /** The same indexes on the same columns, and the same rows except for some ids. */
  ghost predicate Edits(t: Table, u: Table, ids: set<nat>) {
    SameRowsBut(t, u, ids) && SameDefinitions(t.indexes, u.indexes) && SameDefinitions(t.fulltext, u.fulltext)
  }

  lemma BuiltEdits(t: Table, rows: map<nat, Row>, next: nat, tok: string -> seq<string>, ids: set<nat>)
    requires SameRowsBut(t, t.(rows := rows), ids) && Rebuild(t.(rows := rows, nextRowId := next), tok).Ok?
    ensures Edits(t, Rebuild(t.(rows := rows, nextRowId := next), tok).value, ids)
    ensures Rebuild(t.(rows := rows, nextRowId := next), tok).value.nextRowId == next
  {
    hide Buildable, BuildEntries, BuildWords, BuildPrimary;
  }

  lemma InsertTouches(t: Table, s: Statement, env: Env)
    requires s.Insert?
    ensures var (u, r) := ExecTable(t, s, env);
            Edits(t, u, {t.nextRowId}) && u.nextRowId == if r.Ok? then t.nextRowId + 1 else t.nextRowId
  {
    hide NewRow, PrimaryFree, Rebuild;
    if InsertRow(t, s.targets, s.values, env).Ok? {
      var row := NewRow(t, s.targets, s.values, env).value;
      BuiltEdits(t, t.rows[t.nextRowId := row], t.nextRowId + 1, Tok(env, env.tokenizer), {t.nextRowId});
    }
  }

  lemma UpdateTouches(t: Table, s: Statement, env: Env)
    requires s.Update?
    ensures Edits(t, ExecTable(t, s, env).0, Touched(t, s, env)) && ExecTable(t, s, env).0.nextRowId == t.nextRowId
  {
    hide Matching, NormalizeAssignments, Rebuild, Assign;
    var m, norm := Matching(t, s.filter, env), NormalizeAssignments(t.columns, s.assignments, env);
    if m.Ok? && norm.Ok? {
      var tok := Tok(env, env.tokenizer);
      var rows := AssignAll(t.rows, m.value, norm.value);
      assert t.(rows := rows) == t.(rows := rows, nextRowId := t.nextRowId);
      assert t == t.(rows := t.rows, nextRowId := t.nextRowId);
      if Rebuild(t.(rows := rows), tok).Ok? {
        BuiltEdits(t, rows, t.nextRowId, tok, Touched(t, s, env));
      } else if Rebuild(t, tok).Ok? {
        BuiltEdits(t, t.rows, t.nextRowId, tok, Touched(t, s, env));
      }
    }
  }

  lemma DeleteTouches(t: Table, s: Statement, env: Env)
    requires s.Delete?
    ensures Edits(t, ExecTable(t, s, env).0, Touched(t, s, env)) && ExecTable(t, s, env).0.nextRowId == t.nextRowId
  {
    hide Matching, Rebuild;
    var m := Matching(t, s.filter, env);
    if m.Ok? {
      var rows := WithoutRows(t.rows, m.value);
      assert t.(rows := rows) == t.(rows := rows, nextRowId := t.nextRowId);
      if Rebuild(t.(rows := rows), Tok(env, env.tokenizer)).Ok? {
        BuiltEdits(t, rows, t.nextRowId, Tok(env, env.tokenizer), Touched(t, s, env));
      }
    }
  }

  lemma ExecTableTouches(t: Table, s: Statement, env: Env)
    requires OnTable(s) && !s.CreateIndex?
    ensures Edits(t, ExecTable(t, s, env).0, Touched(t, s, env))
    ensures ExecTable(t, s, env).0.nextRowId ==
            if s.Insert? && ExecTable(t, s, env).1.Ok? then t.nextRowId + 1 else t.nextRowId
  {
    hide InsertRow, UpdateRows, DeleteRows, SelectRows, Matching;
    match s
    case Insert(_, _, _) => InsertTouches(t, s, env);
    case Update(_, _, _) => UpdateTouches(t, s, env);
    case Delete(_, _) => DeleteTouches(t, s, env);
    case Select(_, _, _, _, _) =>
  }

  function RowIn(t: Table, id: nat): Option<Row> { if id in t.rows then Some(t.rows[id]) else None }

  /** A statement that will change a stored row: a DELETE that finds it, or an UPDATE that finds it, is accepted,
      leaves the primary keys distinct and gives the row another value. All of it can be read off the table before the
      call. */
  predicate Overwrites(t: Table, s: Statement, id: nat, env: Env) {
    && id in t.rows && id in Touched(t, s, env)
    && (s.Delete? ||
        (s.Update? && NormalizeAssignments(t.columns, s.assignments, env).Ok? && !KeyClash(t, s, env)
         && Assign(t.rows[id], NormalizeAssignments(t.columns, s.assignments, env).value) != t.rows[id]))
  }

  /** An accepted statement changes a row below the next row id if and only if it overwrites it. */
  lemma OverwritesIff(t: Table, s: Statement, id: nat, env: Env)
    requires OnTable(s) && !s.CreateIndex? && Core(t) && id < t.nextRowId
    ensures var (u, r) := ExecTable(t, s, env); r.Ok? && RowIn(u, id) != RowIn(t, id) <==> Overwrites(t, s, id, env)
  {
    hide InsertRow, UpdateRows, DeleteRows, SelectRows, Core, Touched, KeyClash, SameDefinitions, NormalizeAssignments,
         Assign;
    ExecTableTouches(t, s, env);
    match s
    case Insert(_, _, _) => InsertOverwritesNone(t, s, id, env);
    case Update(_, _, _) => UpdateOverwrites(t, s, id, env);
    case Delete(_, _) => DeleteOverwrites(t, s, id, env);
    case Select(_, _, _, _, _) =>
  }

  lemma InsertOverwritesNone(t: Table, s: Statement, id: nat, env: Env)
    requires s.Insert? && id < t.nextRowId
    ensures id !in Touched(t, s, env) && RowIn(ExecTable(t, s, env).0, id) == RowIn(t, id)
  {
    hide InsertRow;
    InsertTouches(t, s, env);
  }

  lemma UpdateOverwrites(t: Table, s: Statement, id: nat, env: Env)
    requires s.Update? && Core(t)
    ensures var (u, r) := ExecTable(t, s, env); r.Ok? && RowIn(u, id) != RowIn(t, id) <==> Overwrites(t, s, id, env)
  {
    hide Core, Matching, NormalizeAssignments, Rebuild, Assign, KeyClash;
    var m, norm := Matching(t, s.filter, env), NormalizeAssignments(t.columns, s.assignments, env);
    if m.Ok? && norm.Ok? {
      UpdateErrsIff(t, s, env);
      RebuiltRows(t, AssignAll(t.rows, m.value, norm.value), Tok(env, env.tokenizer));
    }
  }

  lemma DeleteOverwrites(t: Table, s: Statement, id: nat, env: Env)
    requires s.Delete? && Core(t)
    ensures var (u, r) := ExecTable(t, s, env); r.Ok? && RowIn(u, id) != RowIn(t, id) <==> Overwrites(t, s, id, env)
  {
    hide Core, Matching, Rebuild, KeyClash;
    var m := Matching(t, s.filter, env);
    DeleteSound(t, s.filter, env);
    if m.Ok? { RebuiltRows(t, WithoutRows(t.rows, m.value), Tok(env, env.tokenizer)); }
  }

  // ---------------------------------------------------------------- the shared catalog only grows

  /** The same columns, and a next row id that has not gone back. */
  predicate Later(t: Table, u: Table) {
    u.columns == t.columns && u.primaryKey == t.primaryKey && t.nextRowId <= u.nextRowId
  }

  /** No table goes away or changes its columns, and no next row id goes back. Between the committed catalogs of two
      moments it says that the first came earlier; between a staged and the committed catalog, that the staged one
      has only committed tables and never runs ahead of their next row ids. */
  ghost predicate Follows(c: Catalog, d: Catalog) {
    forall n :: n in c ==> n in d && Later(c[n], d[n])
  }

  lemma ExecGrows(c: Catalog, s: Statement, env: Env)
    ensures Follows(c, Exec(c, s, env).0)
  {
    hide ExecTable;
    if OnTable(s) && s.table in c { ExecTableKeepsName(c[s.table], s, env); }
  }

  // ---------------------------------------------------------------- invariants

  /** Every row key in the lock table, owned or left behind, is below its table's committed next row id. */
  ghost predicate KeysBelow(locks: map<string, nat>, c: Catalog) {
    forall t: string, id: nat :: RowKey(t, id) in locks ==> t in c && id < c[t].nextRowId
  }

  ghost predicate SharedOk(sh: Shared, env: Env) {
    CatalogSound(sh.catalog, env) && KeysBelow(sh.locks, sh.catalog)
  }

  ghost predicate Owns(locks: map<string, nat>, tx: Tx) {
    forall k :: k in tx.locked ==> k in locks && locks[k] == tx.id
  }

  ghost predicate NamesRow(k: string, staged: Catalog) {
    exists t: string, id: nat :: t in staged && RowKey(t, id) == k
  }

  ghost predicate KnownKeys(tx: Tx) {
    forall k :: k in tx.locked ==> IsInsertKey(k) || NamesRow(k, tx.staged)
  }

  /** Wherever the staged catalog differs from the snapshot, the row is locked. */
  ghost predicate Covers(tx: Tx) {
    forall n: string, id: nat :: RowAt(tx.begun, n, id) != RowAt(tx.staged, n, id) ==> RowKey(n, id) in tx.locked
  }

  ghost predicate SameSchemas(c: Catalog, d: Catalog) {
    c.Keys == d.Keys && forall n :: n in c ==> SameSchema(c[n], d[n]) && c[n].primaryKey == d[n].primaryKey
  }

  /** A statement that is about to run has locked all it may touch, and an INSERT has its row id reserved. */
  ghost predicate Ready(tx: Tx, c: Catalog, s: Statement, env: Env) {
    && !IsControl(s) && !IsDdl(s)
    && (OnTable(s) && s.table in tx.staged ==>
          forall id :: id in Touched(tx.staged[s.table], s, env) ==> RowKey(s.table, id) in tx.locked)
    && (s.Insert? ==> s.table in tx.staged && s.table in c && tx.staged[s.table].nextRowId < c[s.table].nextRowId)
  }

  ghost predicate TxOk(sh: Shared, nextTx: nat, tx: Tx, env: Env) {
    && tx.id < nextTx
    && CatalogSound(tx.staged, env)
    && Follows(tx.staged, sh.catalog)
    && Owns(sh.locks, tx)
    && KnownKeys(tx)
    && Covers(tx)
    && SameSchemas(tx.begun, tx.staged)
  }

  ghost predicate ConnOk(sh: Shared, nextTx: nat, conn: Conn, env: Env) {
    && (conn.tx.Some? ==> TxOk(sh, nextTx, conn.tx.value, env))
    && match conn.pending
       case Nothing => true
       case Execute(s) => conn.tx.Some? && Ready(conn.tx.value, sh.catalog, s, env)
       case Define(s) => conn.tx.None? && IsDdl(s)
  }

  // ---------------------------------------------------------------- what others see of a step

  /** The entries of other transactions stay. */
  ghost predicate LocksKept(before: map<string, nat>, after: map<string, nat>, id: nat) {
    forall k :: k in before && before[k] != id ==> k in after && after[k] == before[k]
  }

  ghost predicate Frame(before: Shared, after: Shared, id: nat) {
    Follows(before.catalog, after.catalog) && LocksKept(before.locks, after.locks, id) && after.path == before.path
  }

  /** A step that frames the shared state keeps every other connection's invariant. */
  lemma OthersKept(before: Shared, after: Shared, id: nat, nextTx: nat, nextTx': nat, conn: Conn, env: Env)
    requires Frame(before, after, id) && nextTx <= nextTx' && ConnOk(before, nextTx, conn, env)
    requires conn.tx.Some? ==> conn.tx.value.id != id
    ensures ConnOk(after, nextTx', conn, env)
  {
    hide CatalogSound, KnownKeys, Covers, SameSchemas, Touched;
  }

  // ---------------------------------------------------------------- locking

  lemma {:induction false} LockAllFacts(locks: map<string, nat>, locked: set<string>, id: nat, keys: seq<string>)
    ensures var l := LockAll(locks, locked, id, keys);
            && (forall k :: k in locks ==> k in l.locks && l.locks[k] == locks[k])
            && (forall k :: k in l.locks && k !in locks ==> k in keys)
            && locked <= l.locked
            && (forall k :: k in l.locked && k !in locked ==> k in keys && k in l.locks && l.locks[k] == id)
            && (l.ok ==> forall k :: k in keys ==> k in l.locked)
    decreases keys
  {
    if keys != [] && !(keys[0] in locks && locks[keys[0]] != id) {
      LockAllFacts(locks[keys[0] := id], locked + {keys[0]}, id, keys[1..]);
      assert keys == [keys[0]] + keys[1..];
    }
  }

  /** A key the statement asks for is an insert key, or that of a staged row the statement touches. */
  lemma KeysToLockFacts(staged: Catalog, s: Statement, env: Env)
    requires CatalogSound(staged, env) && KeysToLock(staged, s, env).Ok?
    ensures var keys := KeysToLock(staged, s, env).value;
            && (s.Insert? ==> s.table in staged && forall k :: k in keys ==> IsInsertKey(k))
            && (!s.Insert? ==> forall k :: k in keys ==>
                  OnTable(s) && s.table in staged &&
                  exists id :: k == RowKey(s.table, id) && id in staged[s.table].rows)
            && (OnTable(s) && !s.Insert? && !s.CreateIndex? && s.table in staged ==>
                  forall id :: id in Touched(staged[s.table], s, env) ==> RowKey(s.table, id) in keys)
  {
    hide RowKey, Matching, Sound, IndexKey;
    var keys := KeysToLock(staged, s, env).value;
    if s.Update? || s.Delete? {
      var t := staged[s.table];
      var ids := Matching(t, s.filter, env).value;
      MatchingInRows(t, s.filter, env);
      forall k | k in keys ensures exists id :: k == RowKey(s.table, id) && id in t.rows {
        var i :| 0 <= i < |keys| && keys[i] == k;
        assert k == RowKey(s.table, ids[i]) && ids[i] in ids;
      }
      forall id | id in Touched(t, s, env) ensures RowKey(s.table, id) in keys {
        var i :| 0 <= i < |ids| && ids[i] == id;
        assert keys[i] == RowKey(s.table, id);
      }
    } else if s.Insert? {
      InsertKeyShape(staged[s.table], s);
    }
  }

  lemma InsertKeyShape(t: Table, s: Statement)
    requires s.Insert? && InsertKey(t, s).Ok?
    ensures IsInsertKey(InsertKey(t, s).value)
  {
    hide IndexKey, ValueFor, Targets;
  }

  lemma SoundRowsBelow(t: Table, env: Env)
    requires Sound(t, env)
    ensures forall id :: id in t.rows ==> id < t.nextRowId
  {
    hide Buildable, Built, RowFits;
  }

  /** The keys a statement asks for keep the lock table below the committed next row ids. */
  lemma AskedKeyBelow(sh: Shared, tx: Tx, nextTx: nat, s: Statement, env: Env, t: string, id: nat)
    requires TxOk(sh, nextTx, tx, env) && KeysToLock(tx.staged, s, env).Ok?
    requires RowKey(t, id) in KeysToLock(tx.staged, s, env).value
    ensures t in sh.catalog && id < sh.catalog[t].nextRowId && t in tx.staged
  {
    hide RowKey, KeysToLock, Sound, Owns, KnownKeys, Covers, SameSchemas, Touched, ReadKey, IsInsertKey;
    KeysToLockFacts(tx.staged, s, env);
    if s.Insert? {
      InsertKeyIsNoRow(RowKey(t, id));
      assert false;
    } else {
      var i :| RowKey(t, id) == RowKey(s.table, i) && i in tx.staged[s.table].rows;
      RowKeyInjective(t, id, s.table, i);
      SoundRowsBelow(tx.staged[t], env);
    }
  }

  /** The lock loop, whether it ends in success or conflict. */
  lemma LockLoopOk(sh: Shared, nextTx: nat, tx: Tx, s: Statement, env: Env)
    requires SharedOk(sh, env) && TxOk(sh, nextTx, tx, env) && KeysToLock(tx.staged, s, env).Ok?
    ensures var l := LockAll(sh.locks, tx.locked, tx.id, KeysToLock(tx.staged, s, env).value);
            var sh1, tx1 := sh.(locks := l.locks), tx.(locked := l.locked);
            SharedOk(sh1, env) && TxOk(sh1, nextTx, tx1, env) && Frame(sh, sh1, tx.id)
  {
    hide RowKey, KeysToLock, CatalogSound, SameSchemas, LockAll, IsInsertKey, RowAt, Touched;
    var keys := KeysToLock(tx.staged, s, env).value;
    var l := LockAll(sh.locks, tx.locked, tx.id, keys);
    LockAllFacts(sh.locks, tx.locked, tx.id, keys);
    forall t: string, id: nat | RowKey(t, id) in l.locks ensures t in sh.catalog && id < sh.catalog[t].nextRowId {
      if RowKey(t, id) !in sh.locks { AskedKeyBelow(sh, tx, nextTx, s, env, t, id); }
    }
    KeysToLockFacts(tx.staged, s, env);
    forall k | k in l.locked ensures IsInsertKey(k) || NamesRow(k, tx.staged) {}
  }

  lemma LoopReady(sh: Shared, nextTx: nat, tx: Tx, s: Statement, env: Env)
    requires TxOk(sh, nextTx, tx, env) && KeysToLock(tx.staged, s, env).Ok? && !s.Insert? && !IsControl(s) && !IsDdl(s)
    requires LockAll(sh.locks, tx.locked, tx.id, KeysToLock(tx.staged, s, env).value).ok
    ensures var l := LockAll(sh.locks, tx.locked, tx.id, KeysToLock(tx.staged, s, env).value);
            Ready(tx.(locked := l.locked), sh.catalog, s, env)
  {
    hide RowKey, KeysToLock, CatalogSound, SameSchemas, LockAll, IsInsertKey, RowAt, Touched, KnownKeys, Covers,
         Follows, Owns;
    LockAllFacts(sh.locks, tx.locked, tx.id, KeysToLock(tx.staged, s, env).value);
    KeysToLockFacts(tx.staged, s, env);
  }

  // ---------------------------------------------------------------- reserving

  lemma LaterNextSound(t: Table, n: nat, env: Env)
    requires Sound(t, env) && t.nextRowId <= n
    ensures Sound(t.(nextRowId := n), env)
  {
    hide BuildPrimary, BuildIndexes, BuildFulltext, PrimaryOk, ColumnIndexable, RowFits;
  }

  function Bumped(c: Catalog, n: string, next: nat): Catalog
    requires n in c
  {
    c[n := c[n].(nextRowId := next)]
  }

  /** Moving a next row id forward changes no row and no definition. */
  lemma BumpedKeeps(c: Catalog, n: string, next: nat, env: Env)
    requires CatalogSound(c, env) && n in c && c[n].nextRowId <= next
    ensures CatalogSound(Bumped(c, n, next), env)
    ensures n in Bumped(c, n, next) && Bumped(c, n, next)[n].nextRowId == next
  {
    hide Sound;
    LaterNextSound(c[n], next, env);
  }

  lemma BumpedRows(c: Catalog, n: string, next: nat)
    requires n in c
    ensures forall m, id: nat :: RowAt(Bumped(c, n, next), m, id) == RowAt(c, m, id)
  {}

  lemma ReserveKey(locks: map<string, nat>, c: Catalog, n: string, owner: nat)
    requires KeysBelow(locks, c) && n in c
    ensures RowKey(n, c[n].nextRowId) !in locks
    ensures KeysBelow(locks[RowKey(n, c[n].nextRowId) := owner], Bumped(c, n, c[n].nextRowId + 1))
  {
    hide RowKey;
    var next := c[n].nextRowId;
    forall t: string, id: nat | RowKey(t, id) in locks[RowKey(n, next) := owner]
      ensures t in c && id < Bumped(c, n, next + 1)[t].nextRowId
    {
      if RowKey(t, id) == RowKey(n, next) { RowKeyInjective(t, id, n, next); }
    }
  }

  lemma ReserveKnown(tx: Tx, n: string, next: nat, key: string)
    requires KnownKeys(tx) && n in tx.staged && NamesRow(key, tx.staged)
    ensures KnownKeys(tx.(staged := Bumped(tx.staged, n, next), locked := tx.locked + {key}))
  {
    hide RowKey, IsInsertKey;
    var c := Bumped(tx.staged, n, next);
    forall k | k in tx.locked + {key} ensures IsInsertKey(k) || NamesRow(k, c) {
      if NamesRow(k, tx.staged) {
        var t: string, id: nat :| t in tx.staged && RowKey(t, id) == k;
        assert t in c;
      }
    }
  }

  lemma ReserveCovers(tx: Tx, n: string, next: nat, key: string)
    requires Covers(tx) && SameSchemas(tx.begun, tx.staged) && n in tx.staged
    ensures var tx1 := tx.(staged := Bumped(tx.staged, n, next), locked := tx.locked + {key});
            Covers(tx1) && SameSchemas(tx1.begun, tx1.staged)
  {
    hide RowKey, SameDefinitions, RowAt;
    BumpedRows(tx.staged, n, next);
  }

  lemma LaterNext(t: Table, next: nat)
    requires t.nextRowId <= next
    ensures Later(t, t) && Later(t, t.(nextRowId := next))
  {}

  lemma LaterBoth(t: Table, u: Table)
    requires Later(t, u)
    ensures Later(t.(nextRowId := u.nextRowId), u.(nextRowId := u.nextRowId + 1))
  {}

  lemma ReserveFollows(staged: Catalog, c: Catalog, n: string)
    requires Follows(staged, c) && n in staged
    ensures Follows(Bumped(staged, n, c[n].nextRowId), Bumped(c, n, c[n].nextRowId + 1))
    ensures Follows(c, Bumped(c, n, c[n].nextRowId + 1))
  {
    hide Later;
    assert Later(c[n], c[n]) && Later(c[n], c[n].(nextRowId := c[n].nextRowId + 1)) by {
      LaterNext(c[n], c[n].nextRowId + 1);
    }
    assert Later(staged[n].(nextRowId := c[n].nextRowId), c[n].(nextRowId := c[n].nextRowId + 1)) by {
      LaterBoth(staged[n], c[n]);
    }
    forall m | m in c ensures Later(c[m], c[m]) { LaterNext(c[m], c[m].nextRowId); }
  }

  lemma FollowsAt(staged: Catalog, c: Catalog, n: string)
    requires Follows(staged, c) && n in staged
    ensures n in c && staged[n].nextRowId <= c[n].nextRowId
  {}

  lemma NamesStaged(staged: Catalog, n: string, id: nat)
    requires n in staged
    ensures NamesRow(RowKey(n, id), staged)
  {
    hide RowKey;
  }

  lemma ReserveIs(sh: Shared, tx: Tx, s: Statement)
    requires s.Insert? && Follows(tx.staged, sh.catalog) && s.table in tx.staged
    ensures var reserved := sh.catalog[s.table].nextRowId;
            var key := RowKey(s.table, reserved);
            Reserve(sh, tx, s) ==
            Staging(sh.(catalog := Bumped(sh.catalog, s.table, reserved + 1), locks := sh.locks[key := tx.id]),
                    tx.(staged := Bumped(tx.staged, s.table, reserved), locked := tx.locked + {key}), true)
  {
    hide RowKey;
  }

  lemma ReserveReady(tx: Tx, c: Catalog, s: Statement, env: Env)
    requires s.Insert? && s.table in tx.staged && s.table in c
    requires tx.staged[s.table].nextRowId < c[s.table].nextRowId &&
             RowKey(s.table, tx.staged[s.table].nextRowId) in tx.locked
    ensures Ready(tx, c, s, env)
  {
    hide RowKey;
  }

  /** The reserved id is new, so writing its key unconditionally takes nothing from anyone, and the staged
      INSERT will use exactly this id. */
  lemma ReserveOk(sh: Shared, nextTx: nat, tx: Tx, s: Statement, env: Env)
    requires SharedOk(sh, env) && TxOk(sh, nextTx, tx, env) && s.Insert? && s.table in tx.staged
    ensures s.table in sh.catalog
    ensures var st := Reserve(sh, tx, s);
            && st.ok
            && SharedOk(st.shared, env) && TxOk(st.shared, nextTx, st.tx, env) && Frame(sh, st.shared, tx.id)
            && Ready(st.tx, st.shared.catalog, s, env)
            && s.table in st.tx.staged && st.tx.staged[s.table].nextRowId == sh.catalog[s.table].nextRowId
            && RowKey(s.table, sh.catalog[s.table].nextRowId) !in sh.locks
  {
    hide RowKey, CatalogSound, KnownKeys, Covers, SameSchemas, KeysBelow, Reserve, Follows, Ready, NamesRow, Bumped;
    FollowsAt(tx.staged, sh.catalog, s.table);
    var reserved := sh.catalog[s.table].nextRowId;
    var key := RowKey(s.table, reserved);
    NamesStaged(tx.staged, s.table, reserved);
    ReserveIs(sh, tx, s);
    BumpedKeeps(sh.catalog, s.table, reserved + 1, env);
    BumpedKeeps(tx.staged, s.table, reserved, env);
    ReserveFollows(tx.staged, sh.catalog, s.table);
    ReserveKey(sh.locks, sh.catalog, s.table, tx.id);
    ReserveKnown(tx, s.table, reserved, key);
    ReserveCovers(tx, s.table, reserved, key);
    var st := Reserve(sh, tx, s);
    ReserveReady(st.tx, st.shared.catalog, s, env);
  }

  /** The locking section of a statement, in every outcome. */
  lemma StageOk(sh: Shared, nextTx: nat, tx: Tx, s: Statement, env: Env)
    requires SharedOk(sh, env) && TxOk(sh, nextTx, tx, env) && !IsControl(s) && !IsDdl(s)
    ensures var st := Stage(sh, tx, s, env);
            && SharedOk(st.shared, env) && TxOk(st.shared, nextTx, st.tx, env)
            && Frame(sh, st.shared, tx.id) && st.tx.id == tx.id
            && (st.ok ==> Ready(st.tx, st.shared.catalog, s, env))
  {
    hide RowKey, KeysToLock, LockAll, SharedOk, TxOk, Ready;
    if KeysToLock(tx.staged, s, env).Ok? {
      LockLoopOk(sh, nextTx, tx, s, env);
      var l := LockAll(sh.locks, tx.locked, tx.id, KeysToLock(tx.staged, s, env).value);
      var sh1, tx1 := sh.(locks := l.locks), tx.(locked := l.locked);
      if s.Insert? {
        InsertStaged(tx.staged, s, env);
        if l.ok {
          ReserveOk(sh1, nextTx, tx1, s, env);
          FrameSteps(sh, sh1, Reserve(sh1, tx1, s).shared, tx.id);
        }
      } else if l.ok {
        LoopReady(sh, nextTx, tx, s, env);
      }
    }
  }

  lemma InsertStaged(staged: Catalog, s: Statement, env: Env)
    requires s.Insert? && KeysToLock(staged, s, env).Ok?
    ensures s.table in staged
  {}

  lemma FrameSteps(a: Shared, b: Shared, c: Shared, id: nat)
    requires Frame(a, b, id) && Frame(b, c, id)
    ensures Frame(a, c, id)
  {}

  // ---------------------------------------------------------------- executing

  lemma CoversKept(tx: Tx, n: string, u: Table, ids: set<nat>)
    requires Covers(tx) && n in tx.staged && SameRowsBut(tx.staged[n], u, ids)
    requires forall id: nat :: id in ids ==> RowKey(n, id) in tx.locked
    ensures Covers(tx.(staged := tx.staged[n := u]))
  {
    hide RowKey;
    var c := tx.staged[n := u];
    forall m: string, id: nat | RowAt(tx.begun, m, id) != RowAt(c, m, id) ensures RowKey(m, id) in tx.locked {
      if m == n && id !in ids { assert RowAt(c, m, id) == RowAt(tx.staged, m, id); }
    }
  }

  lemma SchemaKept(c: Catalog, d: Catalog, n: string, u: Table)
    requires SameSchemas(c, d) && n in d
    requires u.name == d[n].name && u.columns == d[n].columns && u.primaryKey == d[n].primaryKey
    requires SameDefinitions(d[n].indexes, u.indexes) && SameDefinitions(d[n].fulltext, u.fulltext)
    ensures SameSchemas(c, d[n := u])
  {}

  lemma ExecuteOk(sh: Shared, nextTx: nat, tx: Tx, s: Statement, env: Env)
    requires TxOk(sh, nextTx, tx, env) && Ready(tx, sh.catalog, s, env)
    ensures TxOk(sh, nextTx, tx.(staged := Exec(tx.staged, s, env).0), env)
  {
    hide RowKey, CatalogSound, ExecTable, Touched, Covers, KnownKeys, SameSchemas, SameRowsBut, SameDefinitions;
    ExecSound(tx.staged, s, env);
    if OnTable(s) && s.table in tx.staged {
      var t := tx.staged[s.table];
      var u := ExecTable(t, s, env).0;
      ExecTableTouches(t, s, env);
      ExecTableKeepsName(t, s, env);
      assert Exec(tx.staged, s, env).0 == tx.staged[s.table := u];
      CoversKept(tx, s.table, u, Touched(t, s, env));
      SchemaKept(tx.begun, tx.staged, s.table, u);
      KnownKeysKept(tx, tx.staged[s.table := u]);
    }
  }

  lemma KnownKeysKept(tx: Tx, c: Catalog)
    requires KnownKeys(tx) && forall n :: n in tx.staged ==> n in c
    ensures KnownKeys(tx.(staged := c))
  {
    hide RowKey, IsInsertKey;
  }

  // ---------------------------------------------------------------- committing

  lemma MergedShape(target: Table, staged: Table, ids: set<nat>)
    requires Shape(target) && Shape(staged) && target.columns == staged.columns
    ensures Shape(Merged(target, staged, ids))
  {
    hide RowFits;
  }

  lemma MergeTableSound(n: string, target: Table, staged: Table, locked: set<string>, env: Env)
    requires Sound(target, env) && Sound(staged, env) && target.columns == staged.columns
    requires MergeTable(n, target, staged, locked, env).Ok?
    ensures WellFormed(MergeTable(n, target, staged, locked, env).value, Tok(env, Simple))
  {
    assert Shape(target) && Shape(staged);
    hide Shape, Built, Buildable, Merged, LockedIds, Readable, Sound;
    MergedShape(target, staged, LockedIds(n, locked));
    BuiltIsWellFormed(Merged(target, staged, LockedIds(n, locked)), Tok(env, Simple));
  }

  lemma MergeTableKeeps(n: string, target: Table, staged: Table, locked: set<string>, env: Env)
    requires MergeTable(n, target, staged, locked, env).Ok?
    ensures var t := MergeTable(n, target, staged, locked, env).value;
            && t.name == target.name && t.columns == target.columns && t.primaryKey == target.primaryKey
            && t.nextRowId == Max(target.nextRowId, staged.nextRowId)
            && t.rows == Merged(target, staged, LockedIds(n, locked)).rows
  {
    hide Buildable, LockedIds, Readable, Overlay, RowsBetween, BuildPrimary, BuildIndexes, BuildFulltext;
  }

  /** A merge keeps the catalog invariant, whatever the lock set says. */
  lemma MergeSound(base: Catalog, staged: Catalog, locked: set<string>, env: Env)
    requires CatalogSound(base, env) && CatalogSound(staged, env) && Follows(staged, base)
    requires MergeCatalogs(base, staged, locked, env).Ok?
    ensures CatalogSound(MergeCatalogs(base, staged, locked, env).value, env)
    ensures Follows(base, MergeCatalogs(base, staged, locked, env).value)
  {
    hide Sound, MergeTable, WellFormed;
    var merged := MergeCatalogs(base, staged, locked, env).value;
    forall n | n in base
      ensures n in merged && merged[n].name == n && Sound(merged[n], env)
      ensures merged[n].columns == base[n].columns && merged[n].primaryKey == base[n].primaryKey &&
              base[n].nextRowId <= merged[n].nextRowId
    {
      if n in staged {
        MergeTableSound(n, base[n], staged[n], locked, env);
        MergeTableKeeps(n, base[n], staged[n], locked, env);
        assert WellFormed(merged[n], Tok(env, Simple)) ==> Sound(merged[n], env) by { WellFormedSound(merged[n], env); }
      }
    }
  }

  lemma WellFormedSound(t: Table, env: Env)
    ensures WellFormed(t, Tok(env, Simple)) ==> Sound(t, env)
  {
    hide WellFormed;
  }

  lemma ReleaseFacts(locks: map<string, nat>, tx: Tx)
    ensures LocksKept(locks, Release(locks, tx), tx.id)
    ensures forall k :: k in Release(locks, tx) ==> k in locks
  {}

  lemma CommitOk(sh: Shared, nextTx: nat, tx: Tx, ok: bool, env: Env)
    requires SharedOk(sh, env) && TxOk(sh, nextTx, tx, env)
    ensures SharedOk(CommitTx(sh, tx, ok, env).0, env) && Frame(sh, CommitTx(sh, tx, ok, env).0, tx.id)
  {
    hide RowKey, CatalogSound, MergeCatalogs, EncodeCatalog, Release, Covers, KnownKeys, SameSchemas;
    ReleaseFacts(sh.locks, tx);
    if MergeCatalogs(sh.catalog, tx.staged, tx.locked, env).Ok? { MergeSound(sh.catalog, tx.staged, tx.locked, env); }
  }

  lemma ReleaseOk(sh: Shared, tx: Tx, env: Env)
    requires SharedOk(sh, env)
    ensures SharedOk(sh.(locks := Release(sh.locks, tx)), env) && Frame(sh, sh.(locks := Release(sh.locks, tx)), tx.id)
  {
    hide RowKey, CatalogSound, Release;
    ReleaseFacts(sh.locks, tx);
  }

  lemma AutoOk(sh: Shared, s: Statement, ok: bool, env: Env, id: nat)
    requires SharedOk(sh, env)
    ensures SharedOk(AutoCommit(sh, s, ok, env).0, env) && Frame(sh, AutoCommit(sh, s, ok, env).0, id)
  {
    hide RowKey, CatalogSound, Exec, EncodeCatalog;
    ExecSound(sh.catalog, s, env);
    ExecGrows(sh.catalog, s, env);
  }

  // ---------------------------------------------------------------- one step of one connection

  function Owner(conn: Conn, nextTx: nat): nat { if conn.tx.Some? then conn.tx.value.id else nextTx }

  lemma LocalStepOk(sh: Shared, nextTx: nat, conn: Conn, a: Action, env: Env)
    requires SharedOk(sh, env) && ConnOk(sh, nextTx, conn, env) && Enabled(conn, a)
    ensures var l := LocalStep(sh, nextTx, conn, a, env);
            && SharedOk(l.shared, env) && ConnOk(l.shared, l.nextTx, l.conn, env)
            && Frame(sh, l.shared, Owner(conn, nextTx)) && nextTx <= l.nextTx
            && (l.conn.tx.Some? ==> l.conn.tx.value.id == Owner(conn, nextTx))
  {
    hide Stage, Exec, CommitTx, Release, AutoCommit, SharedOk, TxOk, Ready, EncodeCatalog;
    match a
    case DoBegin => if conn.tx.None? { SnapshotOk(sh, nextTx, env); }
    case DoLock(s) => StageOk(sh, nextTx, conn.tx.value, s, env);
    case DoExecute => ExecuteOk(sh, nextTx, conn.tx.value, conn.pending.statement, env);
    case DoCommit(ok) => if conn.tx.Some? { CommitOk(sh, nextTx, conn.tx.value, ok, env); }
    case DoRollback => if conn.tx.Some? { ReleaseOk(sh, conn.tx.value, env); }
    case DoAuto(s, ok) => AutoOk(sh, s, ok, env, nextTx);
    case DoDdlCheck(s) =>
    case DoDdl(ok) => AutoOk(sh, conn.pending.statement, ok, env, nextTx);
    case DoDrop => if conn.tx.Some? { ReleaseOk(sh, conn.tx.value, env); }
  }

  lemma SnapshotOk(sh: Shared, nextTx: nat, env: Env)
    requires SharedOk(sh, env)
    ensures TxOk(sh, nextTx + 1, Tx(nextTx, sh.catalog, {}, sh.catalog), env)
  {
    hide RowKey, CatalogSound;
  }
}
