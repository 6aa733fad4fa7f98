/** The laws of the pool, over every interleaving of any number of connections. */
module PoolLaws {
  import opened Values
  import opened Ast
  import opened Tables
  import opened TableFacts
  import opened Catalogs
  import opened Engine
  import opened LockKeys
  import opened Merge
  import opened Pools
  import opened PoolFacts

  // ---------------------------------------------------------------- the invariant

  /** No row id was handed out twice, and all are behind the committed next row ids. */
  ghost predicate IssuedOk(issued: seq<(string, nat)>, c: Catalog) {
    && (forall i :: 0 <= i < |issued| ==> issued[i].0 in c && issued[i].1 < c[issued[i].0].nextRowId)
    && (forall i, j :: 0 <= i < j < |issued| ==> issued[i] != issued[j])
  }

  ghost predicate DistinctTx(conns: map<nat, Conn>) {
    forall c, d :: c in conns && d in conns && c != d && conns[c].tx.Some? && conns[d].tx.Some? ==>
      conns[c].tx.value.id != conns[d].tx.value.id
  }

  ghost predicate PoolOk(p: Pool, env: Env) {
    && SharedOk(p.shared, env)
    && (forall c :: c in p.conns ==> ConnOk(p.shared, p.nextTx, p.conns[c], env))
    && DistinctTx(p.conns)
    && IssuedOk(p.issued, p.shared.catalog)
  }

  lemma IssuedGrows(before: Shared, after: Shared, issued: seq<(string, nat)>, a: Action)
    requires IssuedOk(issued, before.catalog) && Follows(before.catalog, after.catalog)
    ensures IssuedOk(issued + IssuedBy(before, after, a), after.catalog)
  {
    var all := issued + IssuedBy(before, after, a);
    assert forall i :: 0 <= i < |issued| ==> all[i] == issued[i];
  }

  lemma ActOk(p: Pool, c: nat, a: Action, env: Env)
    requires PoolOk(p, env) && c in p.conns && Enabled(p.conns[c], a)
    ensures PoolOk(Step(p, Act(c, a), env), env)
  {
    hide LocalStep, SharedOk, ConnOk, IssuedOk, IssuedBy, Follows, LocksKept;
    var q := Step(p, Act(c, a), env);
    var l := LocalStep(p.shared, p.nextTx, p.conns[c], a, env);
    var owner := Owner(p.conns[c], p.nextTx);
    LocalStepOk(p.shared, p.nextTx, p.conns[c], a, env);
    IssuedGrows(p.shared, l.shared, p.issued, a);
    forall d | d in q.conns && d != c
      ensures ConnOk(q.shared, q.nextTx, q.conns[d], env)
      ensures q.conns[d].tx.Some? ==> q.conns[d].tx.value.id != owner
    {
      if p.conns[d].tx.Some? { TxBelow(p.shared, p.nextTx, p.conns[d], env); }
      OthersKept(p.shared, l.shared, owner, p.nextTx, l.nextTx, p.conns[d], env);
    }
  }

  lemma TxBelow(sh: Shared, nextTx: nat, conn: Conn, env: Env)
    requires ConnOk(sh, nextTx, conn, env) && conn.tx.Some?
    ensures conn.tx.value.id < nextTx && TxOk(sh, nextTx, conn.tx.value, env)
  {
    hide Ready, CatalogSound, Follows, Owns, KnownKeys, Covers, SameSchemas;
  }

  lemma StepOk(p: Pool, e: Event, env: Env)
    requires PoolOk(p, env)
    ensures PoolOk(Step(p, e, env), env)
  {
    hide LocalStep, SharedOk, TxOk, IssuedOk;
    match e
    case Connect(c) =>
    case Act(c, a) => if c in p.conns && Enabled(p.conns[c], a) { ActOk(p, c, a, env); }
  }

  /** Every run keeps the invariant. */
  lemma {:induction false} RunOk(p: Pool, events: seq<Event>, env: Env)
    requires PoolOk(p, env)
    ensures PoolOk(Run(p, events, env), env)
  {
    hide Step, PoolOk;
    if events != [] {
      RunOk(p, events[..|events| - 1], env);
      StepOk(Run(p, events[..|events| - 1], env), events[|events| - 1], env);
    }
  }

  lemma StartOk(c: Catalog, path: bool, disk: string, env: Env)
    requires CatalogSound(c, env)
    ensures PoolOk(Start(c, path, disk), env)
  {
    hide CatalogSound, RowKey;
  }

  /** Some run of some pool ends here. */
  ghost predicate Reachable(p: Pool, env: Env) {
    exists c: Catalog, path: bool, disk: string, events: seq<Event> ::
      CatalogSound(c, env) && p == Run(Start(c, path, disk), events, env)
  }

  lemma ReachableOk(p: Pool, env: Env)
    requires Reachable(p, env)
    ensures PoolOk(p, env)
  {
    hide CatalogSound, PoolOk, Run, Start;
    var c: Catalog, path: bool, disk: string, events: seq<Event> :|
      CatalogSound(c, env) && p == Run(Start(c, path, disk), events, env);
    StartOk(c, path, disk, env);
    RunOk(Start(c, path, disk), events, env);
  }

  ghost predicate Active(p: Pool, c: nat) { c in p.conns && p.conns[c].tx.Some? }

  lemma ActiveOk(p: Pool, c: nat, env: Env)
    requires PoolOk(p, env) && Active(p, c)
    ensures SharedOk(p.shared, env) && TxOk(p.shared, p.nextTx, p.conns[c].tx.value, env)
  {
    hide SharedOk, ConnOk, IssuedOk;
    TxBelow(p.shared, p.nextTx, p.conns[c], env);
  }

  // ---------------------------------------------------------------- exclusion

  /** A key in an active transaction's lock set is that transaction's in the lock table, so no two active
      transactions share a key. */
  lemma LocksExclusive(p: Pool, c: nat, d: nat, env: Env)
    requires Reachable(p, env) && Active(p, c) && Active(p, d) && c != d
    ensures forall k :: k in p.conns[c].tx.value.locked ==>
            k in p.shared.locks && p.shared.locks[k] == p.conns[c].tx.value.id
    ensures p.conns[c].tx.value.locked !! p.conns[d].tx.value.locked
  {
    hide SharedOk, CatalogSound, Follows, KnownKeys, Covers, SameSchemas, IssuedOk, ConnOk, Reachable;
    ReachableOk(p, env);
    ActiveOk(p, c, env);
    ActiveOk(p, d, env);
  }

  // ---------------------------------------------------------------- commit

  /** For a transaction's own lock set, the ids a merge reads for a table are those of its row keys. */
  lemma LockedIdsAre(tx: Tx, n: string, id: nat)
    requires KnownKeys(tx)
    ensures id in LockedIds(n, tx.locked) <==> RowKey(n, id) in tx.locked
  {
    hide RowKey, ReadKey, IsInsertKey;
    if id in LockedIds(n, tx.locked) {
      var k :| k in tx.locked && ReadKey(n, k).OfRow? && ReadKey(n, k).id == id;
      KeyReadsAs(tx, n, k);
    }
    ReadOfRowKey(n, n, id);
  }

  lemma KeyReadsAs(tx: Tx, n: string, k: string)
    requires KnownKeys(tx) && k in tx.locked
    ensures ReadKey(n, k).OfRow? ==> k == RowKey(n, ReadKey(n, k).id)
    ensures ReadKey(n, k).Unreadable? <==> exists t: string, id: nat :: RowKey(t, id) == k && n + ":" <= t
  {
    hide RowKey, ReadKey, IsInsertKey;
    if IsInsertKey(k) {
      InsertKeyIsNoRow(k);
    } else {
      var t: string, id: nat :| t in tx.staged && RowKey(t, id) == k;
      ReadOfRowKey(n, t, id);
      forall u: string, j: nat | RowKey(u, j) == k ensures u == t { RowKeyInjective(u, j, t, id); }
    }
  }

  /** A staged table's name, followed by a colon, starts the name of a table with a locked row. */
  ghost predicate Ambiguous(tx: Tx, n: string) {
    exists t: string, id: nat :: RowKey(t, id) in tx.locked && n + ":" <= t
  }

  lemma ReadableIff(tx: Tx, n: string)
    requires KnownKeys(tx)
    ensures Readable(n, tx.locked) <==> !Ambiguous(tx, n)
  {
    hide RowKey, ReadKey, KnownKeys;
    forall k | k in tx.locked
      ensures ReadKey(n, k).Unreadable? <==> exists t: string, id: nat :: RowKey(t, id) == k && n + ":" <= t
    {
      KeyReadsAs(tx, n, k);
    }
    if Ambiguous(tx, n) {
      var t: string, id: nat :| RowKey(t, id) in tx.locked && n + ":" <= t;
      assert ReadKey(n, RowKey(t, id)).Unreadable?;
    }
  }

  /** The rows of a table after a transaction's commit. */
  function CommittedRows(c: Catalog, tx: Tx, n: string): map<nat, Row>
    requires n in c
  {
    if n in tx.staged then Overlay(c[n].rows, tx.staged[n].rows, LockedIds(n, tx.locked)) else c[n].rows
  }

  /** In every reachable state the append loop has nothing to append: the merged table is the overlay. */
  lemma AppendsNothing(target: Table, staged: Table, ids: set<nat>)
    requires staged.nextRowId <= target.nextRowId
    ensures Merged(target, staged, ids) == target.(rows := Overlay(target.rows, staged.rows, ids))
  {
    assert RowsBetween(staged.rows, target.nextRowId, staged.nextRowId) == map[];
  }

  /** In every reachable state a staged catalog has only committed tables and is never ahead of their next row ids, so
      neither the missing-table branch nor the append loop of a merge has anything to add. */
  lemma StagedNeverAhead(p: Pool, c: nat, n: string, env: Env)
    requires Reachable(p, env) && Active(p, c) && n in p.conns[c].tx.value.staged
    ensures n in p.shared.catalog
    ensures var (t, u) := (p.conns[c].tx.value.staged[n], p.shared.catalog[n]);
            && t.nextRowId <= u.nextRowId && t.columns == u.columns && t.primaryKey == u.primaryKey
            && RowsBetween(t.rows, u.nextRowId, t.nextRowId) == map[]
  {
    hide Reachable, PoolOk, SharedOk, CatalogSound, Owns, KnownKeys, Covers, SameSchemas;
    ReachableOk(p, env);
    ActiveOk(p, c, env);
  }

  /** When a table's part of the merge goes through. */
  lemma MergesIff(sh: Shared, nextTx: nat, tx: Tx, n: string, env: Env)
    requires SharedOk(sh, env) && TxOk(sh, nextTx, tx, env) && n in tx.staged
    ensures n in sh.catalog
    ensures MergeTable(n, sh.catalog[n], tx.staged[n], tx.locked, env).Ok? <==>
            && !Ambiguous(tx, n)
            && (sh.catalog[n].primaryKey.Some? ==>
                PrimaryOk(CommittedRows(sh.catalog, tx, n), sh.catalog[n].primaryKey.value))
  {
    hide RowKey, KnownKeys, Covers, SameSchemas, Owns, Ambiguous, Readable, Overlay, PrimaryOk, ColumnIndexable,
         LockedIds, KeysBelow, Merged;
    var target, staged := sh.catalog[n], tx.staged[n];
    var ids := LockedIds(n, tx.locked);
    ReadableIff(tx, n);
    SoundShape(target, env);
    SoundShape(staged, env);
    hide Shape, Sound;
    MergedShape(target, staged, ids);
    ShapeIndexable(Merged(target, staged, ids));
    AppendsNothing(target, staged, ids);
  }

  lemma SoundShape(t: Table, env: Env)
    requires Sound(t, env)
    ensures Shape(t)
  {
    hide Shape, Buildable, Built;
  }

  /** No staged table's name is a colon-prefix of a locked table's, and the overlaid rows of every staged table have
      distinct, non-null primary keys. */
  ghost predicate Overlayable(sh: Shared, tx: Tx) {
    forall n :: n in tx.staged ==>
      && n in sh.catalog && !Ambiguous(tx, n)
      && (sh.catalog[n].primaryKey.Some? ==>
          PrimaryOk(CommittedRows(sh.catalog, tx, n), sh.catalog[n].primaryKey.value))
  }

  lemma MergesAllIff(sh: Shared, nextTx: nat, tx: Tx, env: Env)
    requires SharedOk(sh, env) && TxOk(sh, nextTx, tx, env)
    ensures MergeCatalogs(sh.catalog, tx.staged, tx.locked, env).Ok? <==> Overlayable(sh, tx)
  {
    hide SharedOk, TxOk, Ambiguous, CommittedRows, PrimaryOk, MergeTable;
    forall n | n in tx.staged
      ensures n in sh.catalog
      ensures MergeTable(n, sh.catalog[n], tx.staged[n], tx.locked, env).Ok? <==>
              && !Ambiguous(tx, n)
              && (sh.catalog[n].primaryKey.Some? ==>
                  PrimaryOk(CommittedRows(sh.catalog, tx, n), sh.catalog[n].primaryKey.value))
    {
      MergesIff(sh, nextTx, tx, n, env);
    }
  }

  /** COMMIT succeeds exactly when the file can be written and the locked rows can be overlaid. */
  lemma CommitSucceedsIff(p: Pool, c: nat, ok: bool, env: Env)
    requires Reachable(p, env) && Active(p, c)
    ensures var (sh, tx) := (p.shared, p.conns[c].tx.value);
            CommitTx(sh, tx, ok, env).1.Ok? <==> CanWrite(sh.path, ok) && Overlayable(sh, tx)
  {
    hide SharedOk, TxOk, Overlayable, MergeCatalogs, EncodeCatalog, Release, Reachable, PoolOk;
    ReachableOk(p, env);
    ActiveOk(p, c, env);
    MergesAllIff(p.shared, p.nextTx, p.conns[c].tx.value, env);
  }
}
