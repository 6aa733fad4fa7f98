/** What a COMMIT does to the committed catalog: an overlay of the locked rows, no more and no less. */
module PoolCommits {
  import opened Basics
  import opened Values
  import opened Ast
  import opened Tables
  import opened Catalogs
  import opened Engine
  import opened LockKeys
  import opened Merge
  import opened Pools
  import opened PoolFacts
  import opened PoolLaws
  import opened TableObjects

  /** The same table but for its rows and what its indexes hold. */
  predicate SameButRows(t: Table, u: Table) {
    SameSchema(t, u) && t.primaryKey == u.primaryKey && t.nextRowId == u.nextRowId
  }

  lemma MergedTableIs(n: string, target: Table, staged: Table, locked: set<string>, env: Env)
    requires MergeTable(n, target, staged, locked, env).Ok? && staged.nextRowId <= target.nextRowId
    ensures var u := target.(rows := Overlay(target.rows, staged.rows, LockedIds(n, locked)));
            Buildable(u) && MergeTable(n, target, staged, locked, env).value == Built(u, Tok(env, Simple))
  {
    hide Buildable, Built, Overlay, LockedIds, Readable;
    AppendsNothing(target, staged, LockedIds(n, locked));
  }

  lemma BuiltSameButRows(t: Table, rows: map<nat, Row>, tok: string -> seq<string>)
    requires Buildable(t.(rows := rows))
    ensures SameButRows(t, Built(t.(rows := rows), tok)) && Built(t.(rows := rows), tok).rows == rows
  {
    hide Buildable, BuildEntries, BuildWords, BuildPrimary;
  }

  /** No table appears, disappears or changes its definition; a staged table gets the overlay. */
  lemma MergedTables(sh: Shared, nextTx: nat, tx: Tx, env: Env)
    requires TxOk(sh, nextTx, tx, env) && MergeCatalogs(sh.catalog, tx.staged, tx.locked, env).Ok?
    ensures var merged := MergeCatalogs(sh.catalog, tx.staged, tx.locked, env).value;
            && merged.Keys == sh.catalog.Keys
            && forall n :: n in merged ==>
                 && SameButRows(sh.catalog[n], merged[n]) && merged[n].rows == CommittedRows(sh.catalog, tx, n)
                 && (n in tx.staged ==> Buildable(sh.catalog[n].(rows := CommittedRows(sh.catalog, tx, n))))
                 && merged[n] ==
                    if n in tx.staged
                    then Built(sh.catalog[n].(rows := CommittedRows(sh.catalog, tx, n)), Tok(env, Simple))
                    else sh.catalog[n]
  {
    hide CatalogSound, KnownKeys, Covers, SameSchemas, Owns, MergeTable, Overlay, LockedIds, SameButRows, Buildable,
         Built;
    var merged := MergeCatalogs(sh.catalog, tx.staged, tx.locked, env).value;
    forall n | n in sh.catalog
      ensures SameButRows(sh.catalog[n], merged[n]) && merged[n].rows == CommittedRows(sh.catalog, tx, n)
      ensures n in tx.staged ==> Buildable(sh.catalog[n].(rows := CommittedRows(sh.catalog, tx, n)))
      ensures merged[n] ==
              if n in tx.staged
              then Built(sh.catalog[n].(rows := CommittedRows(sh.catalog, tx, n)), Tok(env, Simple))
              else sh.catalog[n]
    {
      if n in tx.staged {
        MergedTableIs(n, sh.catalog[n], tx.staged[n], tx.locked, env);
        BuiltSameButRows(sh.catalog[n], CommittedRows(sh.catalog, tx, n), Tok(env, Simple));
      } else {
        SameSelf(sh.catalog[n]);
      }
    }
  }

  lemma SameSelf(t: Table)
    ensures SameButRows(t, t)
  {}

  lemma CommittedRowAt(c: Catalog, tx: Tx, n: string, id: nat)
    requires KnownKeys(tx) && n in c
    ensures var row := if id in CommittedRows(c, tx, n) then Some(CommittedRows(c, tx, n)[id]) else None;
            row == if RowKey(n, id) in tx.locked then RowAt(tx.staged, n, id) else RowAt(c, n, id)
  {
    hide RowKey, LockedIds, KnownKeys;
    LockedIdsAre(tx, n, id);
    if RowKey(n, id) in tx.locked { LockedRowStaged(tx, n, id); }
  }

  lemma LockedRowStaged(tx: Tx, n: string, id: nat)
    requires KnownKeys(tx) && RowKey(n, id) in tx.locked
    ensures n in tx.staged
  {
    hide RowKey, IsInsertKey;
    if IsInsertKey(RowKey(n, id)) {
      InsertKeyIsNoRow(RowKey(n, id));
      assert false;
    } else {
      var t: string, i: nat :| t in tx.staged && RowKey(t, i) == RowKey(n, id);
      RowKeyInjective(t, i, n, id);
    }
  }

  /** The commit step on any state that satisfies the invariant. */
  lemma CommitRows(sh: Shared, nextTx: nat, tx: Tx, ok: bool, env: Env)
    requires TxOk(sh, nextTx, tx, env)
    ensures var (after, r) := CommitTx(sh, tx, ok, env);
            && (r.Err? ==> after.catalog == sh.catalog && after.disk == sh.disk)
            && (r.Ok? ==>
                  && after.catalog.Keys == sh.catalog.Keys
                  && (forall n :: n in sh.catalog ==> SameButRows(sh.catalog[n], after.catalog[n]))
                  && forall n: string, id: nat ::
                       RowAt(after.catalog, n, id) ==
                       if RowKey(n, id) in tx.locked then RowAt(tx.staged, n, id) else RowAt(sh.catalog, n, id))
  {
    hide RowKey, CatalogSound, Covers, SameSchemas, Owns, MergeCatalogs, SameButRows, CommittedRows, Buildable, Built,
         Release, EncodeCatalog, KnownKeys;
    var (after, r) := CommitTx(sh, tx, ok, env);
    if r.Ok? {
      MergedTables(sh, nextTx, tx, env);
      forall n: string, id: nat
        ensures RowAt(after.catalog, n, id) ==
                if RowKey(n, id) in tx.locked then RowAt(tx.staged, n, id) else RowAt(sh.catalog, n, id)
      {
        if n in sh.catalog { CommittedRowAt(sh.catalog, tx, n, id); }
        if RowKey(n, id) in tx.locked { LockedRowStaged(tx, n, id); }
      }
    }
  }

  /** A successful COMMIT gives the committed rows with exactly the locked ids replaced by, or removed as in, the
      staged rows; tables, columns, definitions and next row ids stay. A failed one changes no row and no file. */
  lemma CommitIsOverlay(p: Pool, c: nat, ok: bool, env: Env)
    requires Reachable(p, env) && Active(p, c)
    ensures var (sh, tx) := (p.shared, p.conns[c].tx.value);
            var (after, r) := CommitTx(sh, tx, ok, env);
            && (r.Err? ==> after.catalog == sh.catalog && after.disk == sh.disk)
            && (r.Ok? ==>
                  && after.catalog.Keys == sh.catalog.Keys
                  && (forall n :: n in sh.catalog ==> SameButRows(sh.catalog[n], after.catalog[n]))
                  && forall n: string, id: nat ::
                       RowAt(after.catalog, n, id) ==
                       if RowKey(n, id) in tx.locked then RowAt(tx.staged, n, id) else RowAt(sh.catalog, n, id))
  {
    hide RowKey, TxOk, SharedOk, PoolOk, CommitTx, SameButRows, RowAt, Reachable;
    ReachableOk(p, env);
    ActiveOk(p, c, env);
    CommitRows(p.shared, p.nextTx, p.conns[c].tx.value, ok, env);
  }

  /** No write is lost: wherever the staged catalog differs from the snapshot the transaction began with, the
      committed catalog ends up with the staged row. */
  lemma CommitLosesNothing(p: Pool, c: nat, ok: bool, env: Env, n: string, id: nat)
    requires Reachable(p, env) && Active(p, c)
    requires CommitTx(p.shared, p.conns[c].tx.value, ok, env).1.Ok?
    requires RowAt(p.conns[c].tx.value.begun, n, id) != RowAt(p.conns[c].tx.value.staged, n, id)
    ensures RowAt(CommitTx(p.shared, p.conns[c].tx.value, ok, env).0.catalog, n, id) ==
            RowAt(p.conns[c].tx.value.staged, n, id)
  {
    hide RowKey, SharedOk, PoolOk, CommitTx, SameButRows, RowAt, Reachable, CatalogSound, Follows, Owns, KnownKeys,
         SameSchemas;
    ReachableOk(p, env);
    ActiveOk(p, c, env);
    CommitRows(p.shared, p.nextTx, p.conns[c].tx.value, ok, env);
  }

  /** A COMMIT gives its locks back if and only if the locked rows can be overlaid (or there are none): a failed write
      still releases them, a failed merge leaves every one of them behind with no transaction to release it. */
  lemma CommitReleasesIff(p: Pool, c: nat, ok: bool, env: Env)
    requires Reachable(p, env) && Active(p, c)
    ensures var (sh, tx) := (p.shared, p.conns[c].tx.value);
            && ((forall k :: k in tx.locked ==> k !in CommitTx(sh, tx, ok, env).0.locks) <==>
                Overlayable(sh, tx) || tx.locked == {})
            && (!Overlayable(sh, tx) ==> CommitTx(sh, tx, ok, env).0 == sh)
  {
    hide SharedOk, PoolOk, MergeCatalogs, EncodeCatalog, Reachable, CatalogSound, Follows, KnownKeys, Covers,
         SameSchemas, Overlayable;
    ReachableOk(p, env);
    ActiveOk(p, c, env);
    var tx := p.conns[c].tx.value;
    MergesAllIff(p.shared, p.nextTx, tx, env);
    if tx.locked != {} {
      var k :| k in tx.locked;
      assert k in p.shared.locks && p.shared.locks[k] == tx.id;
    }
  }

  // ---------------------------------------------------------------- two commits

  lemma OverlaysCommute(rows: map<nat, Row>, s: map<nat, Row>, i: set<nat>, t: map<nat, Row>, j: set<nat>)
    requires i !! j
    ensures Overlay(Overlay(rows, s, i), t, j) == Overlay(Overlay(rows, t, j), s, i)
  {}

  lemma LockedIdsDisjoint(n: string, a: Tx, b: Tx)
    requires KnownKeys(a) && KnownKeys(b) && a.locked !! b.locked
    ensures LockedIds(n, a.locked) !! LockedIds(n, b.locked)
  {
    hide RowKey, LockedIds, KnownKeys;
    forall id | id in LockedIds(n, a.locked) && id in LockedIds(n, b.locked) ensures false {
      LockedIdsAre(a, n, id);
      LockedIdsAre(b, n, id);
    }
  }

  lemma BuiltOfSame(t: Table, u: Table, rows: map<nat, Row>, tok: string -> seq<string>)
    requires SameButRows(t, u) && Buildable(u.(rows := rows))
    ensures Buildable(t.(rows := rows)) && Built(t.(rows := rows), tok) == Built(u.(rows := rows), tok)
  {
    hide Buildable, Built;
    SameDataBuilds(t.(rows := rows), u.(rows := rows), tok);
  }

  /** The table after commits by a and then b. */
  lemma TwiceMerged(sh: Shared, mid: Shared, nextTx: nat, a: Tx, b: Tx, env: Env, n: string)
    requires TxOk(sh, nextTx, a, env) && TxOk(mid, nextTx, b, env) && n in sh.catalog
    requires MergeCatalogs(sh.catalog, a.staged, a.locked, env) == Ok(mid.catalog)
    requires MergeCatalogs(mid.catalog, b.staged, b.locked, env).Ok?
    ensures n in mid.catalog && n in MergeCatalogs(mid.catalog, b.staged, b.locked, env).value
    ensures var rows := CommittedRows(mid.catalog, b, n);
            var both := MergeCatalogs(mid.catalog, b.staged, b.locked, env).value[n];
            if n in a.staged || n in b.staged
            then Buildable(sh.catalog[n].(rows := rows)) &&
                 both == Built(sh.catalog[n].(rows := rows), Tok(env, Simple))
            else both == sh.catalog[n]
  {
    hide TxOk, MergeCatalogs, CommittedRows, Buildable, Built, SameButRows;
    MergedTables(sh, nextTx, a, env);
    MergedTables(mid, nextTx, b, env);
    if n in b.staged {
      BuiltOfSame(sh.catalog[n], mid.catalog[n], CommittedRows(mid.catalog, b, n), Tok(env, Simple));
    } else if n in a.staged {
      CommittedElsewhere(mid.catalog, b, n);
      assert mid.catalog[n].rows == CommittedRows(sh.catalog, a, n);
    }
  }

  lemma CommittedElsewhere(c: Catalog, tx: Tx, n: string)
    requires n in c && n !in tx.staged
    ensures CommittedRows(c, tx, n) == c[n].rows
  {}

  lemma CommittedTwice(c: Catalog, ca: Catalog, cb: Catalog, a: Tx, b: Tx, n: string)
    requires KnownKeys(a) && KnownKeys(b) && a.locked !! b.locked && n in c && n in ca && n in cb
    requires ca[n].rows == CommittedRows(c, a, n) && cb[n].rows == CommittedRows(c, b, n)
    ensures CommittedRows(ca, b, n) == CommittedRows(cb, a, n)
  {
    hide KnownKeys, LockedIds, Overlay;
    LockedIdsDisjoint(n, a, b);
    if n in a.staged && n in b.staged {
      OverlaysCommute(c[n].rows, a.staged[n].rows, LockedIds(n, a.locked), b.staged[n].rows, LockedIds(n, b.locked));
    }
  }

  lemma MergedKeys(sh: Shared, nextTx: nat, tx: Tx, env: Env)
    requires TxOk(sh, nextTx, tx, env) && MergeCatalogs(sh.catalog, tx.staged, tx.locked, env).Ok?
    ensures MergeCatalogs(sh.catalog, tx.staged, tx.locked, env).value.Keys == sh.catalog.Keys
  {
    hide TxOk, MergeCatalogs, CommittedRows, Buildable, Built, SameButRows;
    MergedTables(sh, nextTx, tx, env);
  }

  lemma TableCommutes(sh: Shared, ma: Shared, mb: Shared, nextTx: nat, a: Tx, b: Tx, env: Env, n: string)
    requires TxOk(sh, nextTx, a, env) && TxOk(sh, nextTx, b, env) && a.locked !! b.locked
    requires TxOk(ma, nextTx, b, env) && TxOk(mb, nextTx, a, env) && n in sh.catalog
    requires MergeCatalogs(sh.catalog, a.staged, a.locked, env) == Ok(ma.catalog)
    requires MergeCatalogs(sh.catalog, b.staged, b.locked, env) == Ok(mb.catalog)
    requires MergeCatalogs(ma.catalog, b.staged, b.locked, env).Ok? &&
             MergeCatalogs(mb.catalog, a.staged, a.locked, env).Ok?
    ensures var ab := MergeCatalogs(ma.catalog, b.staged, b.locked, env).value;
            var ba := MergeCatalogs(mb.catalog, a.staged, a.locked, env).value;
            n in ab && n in ba && ab[n] == ba[n]
  {
    assert KnownKeys(a) && KnownKeys(b);
    hide TxOk, MergeCatalogs, CommittedRows, Buildable, Built, SameButRows, KnownKeys;
    MergedTables(sh, nextTx, a, env);
    MergedTables(sh, nextTx, b, env);
    CommittedTwice(sh.catalog, ma.catalog, mb.catalog, a, b, n);
    TwiceMerged(sh, ma, nextTx, a, b, env, n);
    TwiceMerged(sh, mb, nextTx, b, a, env, n);
  }

  lemma MergesCommute(sh: Shared, ma: Shared, mb: Shared, nextTx: nat, a: Tx, b: Tx, env: Env)
    requires TxOk(sh, nextTx, a, env) && TxOk(sh, nextTx, b, env) && a.locked !! b.locked
    requires TxOk(ma, nextTx, b, env) && TxOk(mb, nextTx, a, env)
    requires MergeCatalogs(sh.catalog, a.staged, a.locked, env) == Ok(ma.catalog)
    requires MergeCatalogs(sh.catalog, b.staged, b.locked, env) == Ok(mb.catalog)
    requires MergeCatalogs(ma.catalog, b.staged, b.locked, env).Ok? &&
             MergeCatalogs(mb.catalog, a.staged, a.locked, env).Ok?
    ensures MergeCatalogs(ma.catalog, b.staged, b.locked, env) == MergeCatalogs(mb.catalog, a.staged, a.locked, env)
  {
    hide TxOk, MergeCatalogs;
    MergedKeys(sh, nextTx, a, env);
    MergedKeys(sh, nextTx, b, env);
    MergedKeys(ma, nextTx, b, env);
    MergedKeys(mb, nextTx, a, env);
    var ab := MergeCatalogs(ma.catalog, b.staged, b.locked, env).value;
    var ba := MergeCatalogs(mb.catalog, a.staged, a.locked, env).value;
    forall n | n in sh.catalog ensures n in ab && n in ba && ab[n] == ba[n] {
      TableCommutes(sh, ma, mb, nextTx, a, b, env, n);
    }
    assert ab == ba;
  }

  lemma ReleasesCommute(locks: map<string, nat>, a: Tx, b: Tx)
    ensures Release(Release(locks, a), b) == Release(Release(locks, b), a)
  {}

  /** One commit leaves another transaction's invariant alone. */
  lemma CommitKeepsOther(p: Pool, c: nat, d: nat, ok: bool, env: Env)
    requires PoolOk(p, env) && Active(p, c) && Active(p, d) && c != d
    ensures TxOk(CommitTx(p.shared, p.conns[c].tx.value, ok, env).0, p.nextTx, p.conns[d].tx.value, env)
  {
    hide SharedOk, TxOk, IssuedOk, CommitTx, Ready;
    ActiveOk(p, c, env);
    ActiveOk(p, d, env);
    CommitOk(p.shared, p.nextTx, p.conns[c].tx.value, ok, env);
    OthersKept(p.shared, CommitTx(p.shared, p.conns[c].tx.value, ok, env).0, p.conns[c].tx.value.id, p.nextTx, p.nextTx,
               Conn(p.conns[d].tx, Nothing), env);
  }

  /** The commits of two active transactions give the same catalog, the same lock table and the same file in
      either order, whenever both orders succeed. */
  lemma CommitsCommute(p: Pool, c: nat, d: nat, env: Env)
    requires Reachable(p, env) && Active(p, c) && Active(p, d) && c != d
    requires var (sh, a, b) := (p.shared, p.conns[c].tx.value, p.conns[d].tx.value);
             && CommitTx(sh, a, true, env).1.Ok? && CommitTx(CommitTx(sh, a, true, env).0, b, true, env).1.Ok?
             && CommitTx(sh, b, true, env).1.Ok? && CommitTx(CommitTx(sh, b, true, env).0, a, true, env).1.Ok?
    ensures var (sh, a, b) := (p.shared, p.conns[c].tx.value, p.conns[d].tx.value);
            CommitTx(CommitTx(sh, a, true, env).0, b, true, env).0 ==
            CommitTx(CommitTx(sh, b, true, env).0, a, true, env).0
  {
    hide TxOk, SharedOk, PoolOk, MergeCatalogs, Release, EncodeCatalog, Reachable;
    var (sh, a, b) := (p.shared, p.conns[c].tx.value, p.conns[d].tx.value);
    LocksExclusive(p, c, d, env);
    ReachableOk(p, env);
    ActiveOk(p, c, env);
    ActiveOk(p, d, env);
    CommitKeepsOther(p, c, d, true, env);
    CommitKeepsOther(p, d, c, true, env);
    MergesCommute(sh, CommitTx(sh, a, true, env).0, CommitTx(sh, b, true, env).0, p.nextTx, a, b, env);
    ReleasesCommute(sh.locks, a, b);
  }
}
