/** `merge_catalogs` (`pool.rs`): COMMIT overlays the locked rows of a staged catalog onto the current one. */
module Merge {
  import opened Basics
  import opened Values
  import opened Text
  import opened Ast
  import opened Tables
  import opened Catalogs
  import opened LockKeys
  import opened TableObjects

  // ---------------------------------------------------------------- specification

  /** The row ids the locked keys name for a table. */
  function LockedIds(table: string, locked: set<string>): set<nat> {
    set key | key in locked && ReadKey(table, key).OfRow? :: ReadKey(table, key).id
  }

  predicate Readable(table: string, locked: set<string>) {
    forall key :: key in locked ==> !ReadKey(table, key).Unreadable?
  }

  /** The target rows with exactly the given ids replaced by, or removed as in, the staged rows. */
  function Overlay(target: map<nat, Row>, staged: map<nat, Row>, ids: set<nat>): map<nat, Row> {
    map id | id in target.Keys + staged.Keys && (if id in ids then id in staged else id in target) ::
      if id in ids then staged[id] else target[id]
  }

  function RowsBetween(rows: map<nat, Row>, from: nat, to: nat): map<nat, Row> {
    map id | id in rows && from <= id < to :: rows[id]
  }

  function Max(a: nat, b: nat): nat { if a < b then b else a }

  /** The target before its indexes are rebuilt: locked rows overlaid, staged rows past the target's next row
      id appended. */
  function Merged(target: Table, staged: Table, ids: set<nat>): Table {
    target.(rows := Overlay(target.rows, staged.rows, ids) +
            RowsBetween(staged.rows, target.nextRowId, staged.nextRowId),
            nextRowId := Max(target.nextRowId, staged.nextRowId))
  }

  function MergeTable(name: string, target: Table, staged: Table, locked: set<string>, env: Env): Result<Table, Error> {
    if !Readable(name, locked) then Err(Execution)
    else Rebuild(Merged(target, staged, LockedIds(name, locked)), Tok(env, Simple))
  }

  ghost predicate Mergeable(base: Catalog, staged: Catalog, locked: set<string>, env: Env) {
    forall n :: n in staged && n in base ==> MergeTable(n, base[n], staged[n], locked, env).Ok?
  }

  function MergedAt(base: Catalog, staged: Catalog, locked: set<string>, env: Env, n: string): Table
    requires n in base || n in staged
    requires n in staged && n in base ==> MergeTable(n, base[n], staged[n], locked, env).Ok?
  {
    if n !in staged then base[n] else if n !in base then staged[n]
    else MergeTable(n, base[n], staged[n], locked, env).value
  }

  ghost function MergeCatalogs(base: Catalog, staged: Catalog, locked: set<string>, env: Env): Result<Catalog, Error> {
    if Mergeable(base, staged, locked, env)
    then Ok(map n | n in base.Keys + staged.Keys :: MergedAt(base, staged, locked, env, n))
    else Err(Execution)
  }

  // ---------------------------------------------------------------- the loops

  lemma OverlayStep(target: map<nat, Row>, staged: map<nat, Row>, ids: set<nat>, id: nat)
    ensures Overlay(target, staged, ids + {id}) ==
            if id in staged then Overlay(target, staged, ids)[id := staged[id]] else Overlay(target, staged, ids) - {id}
  {}

  lemma LockedIdsStep(table: string, locked: set<string>, key: string)
    ensures LockedIds(table, locked + {key}) ==
            LockedIds(table, locked) + (if ReadKey(table, key).OfRow? then {ReadKey(table, key).id} else {})
  {
    hide ReadKey;
    forall id | id in LockedIds(table, locked) ensures id in LockedIds(table, locked + {key}) {
      var k :| k in locked && ReadKey(table, k).OfRow? && ReadKey(table, k).id == id;
      assert k in locked + {key};
    }
    if ReadKey(table, key).OfRow? { assert key in locked + {key}; }
  }

  method OverlayLocked(name: string, target: map<nat, Row>, staged: map<nat, Row>, locked: set<string>)
    returns (r: Result<map<nat, Row>, Error>)
    ensures r == if Readable(name, locked) then Ok(Overlay(target, staged, LockedIds(name, locked))) else Err(Execution)
  {
    hide Overlay, LockedIds, AscendingNames, ParseRowId, RowPrefix;
    var keys := AscendingNames(locked);
    var rows := target;
    ghost var done: set<string> := {};
    OverlayNothing(name, target, staged);
    var prefix := RowPrefix(name);
    var i := 0;
    while i < |keys|
      invariant 0 <= i <= |keys| && forall k :: k in done <==> k in keys[..i]
      invariant rows == Overlay(target, staged, LockedIds(name, done)) && Readable(name, done)
    {
      var key := keys[i];
      assert keys[..i + 1] == keys[..i] + [key];
      LockedIdsStep(name, done, key);
      if prefix <= key {
        var id := ParseRowId(key[|prefix|..]);
        if id.None? {
          assert ReadKey(name, key).Unreadable?;
          return Err(Execution);
        }
        OverlayStep(target, staged, LockedIds(name, done), id.value);
        rows := if id.value in staged then rows[id.value := staged[id.value]] else rows - {id.value};
      } else {
        assert LockedIds(name, done) + {} == LockedIds(name, done);
      }
      done := done + {key};
      i := i + 1;
    }
    assert keys[..i] == keys;
    assert done == locked;
    r := Ok(rows);
  }

  lemma OverlayNothing(name: string, target: map<nat, Row>, staged: map<nat, Row>)
    ensures Overlay(target, staged, LockedIds(name, {})) == target
  {}

  lemma NothingBetween(rows: map<nat, Row>, staged: map<nat, Row>, from: nat, to: nat)
    ensures rows + RowsBetween(staged, from, from) == rows
    ensures to <= from ==> RowsBetween(staged, from, to) == RowsBetween(staged, from, from)
  {}

  /** The append loop. */
  method AppendBetween(rows: map<nat, Row>, staged: map<nat, Row>, from: nat, to: nat) returns (out: map<nat, Row>)
    ensures out == rows + RowsBetween(staged, from, to)
  {
    hide RowsBetween;
    out := rows;
    var id := from;
    NothingBetween(rows, staged, from, to);
    while id < to
      invariant from <= id && (from <= to ==> id <= to) && (to <= from ==> id == from)
      invariant out == rows + RowsBetween(staged, from, id)
    {
      BetweenStep(rows, staged, from, id);
      if id in staged { out := out[id := staged[id]]; }
      id := id + 1;
    }
  }

  lemma BetweenStep(rows: map<nat, Row>, staged: map<nat, Row>, from: nat, id: nat)
    requires from <= id
    ensures var now := rows + RowsBetween(staged, from, id);
            rows + RowsBetween(staged, from, id + 1) == if id in staged then now[id := staged[id]] else now
  {}

  /** One table's part of the merge, ending with an index rebuild that uses the simple tokeniser. */
  method MergeInto(name: string, target: Table, staged: Table, locked: set<string>, env: Env)
    returns (r: Result<Table, Error>)
    ensures r == MergeTable(name, target, staged, locked, env)
  {
    hide Overlay, LockedIds, RowsBetween, Buildable, Built, Readable;
    var overlaid := OverlayLocked(name, target.rows, staged.rows, locked);
    if overlaid.Err? { return Err(Execution); }
    var rows := AppendBetween(overlaid.value, staged.rows, target.nextRowId, staged.nextRowId);
    var t := new TableObject(target.(rows := rows, nextRowId := Max(target.nextRowId, staged.nextRowId)));
    var built := t.RebuildIndexes(Tok(env, Simple));
    if built.Err? { return Err(built.error); }
    r := Ok(t.Value());
  }

  /** The catalog once the tables in `done` have been merged. */
  ghost predicate PartlyMerged(base: Catalog, staged: Catalog, locked: set<string>, env: Env, done: set<string>,
                               merged: Catalog) {
    && done <= staged.Keys
    && merged.Keys == base.Keys + done
    && (forall n :: n in done && n in base ==> MergeTable(n, base[n], staged[n], locked, env).Ok?)
    && (forall n :: n in merged ==> merged[n] == if n in done then MergedAt(base, staged, locked, env, n) else base[n])
  }

  lemma MergeStep(base: Catalog, staged: Catalog, locked: set<string>, env: Env, done: set<string>, merged: Catalog,
                  n: string)
    requires PartlyMerged(base, staged, locked, env, done, merged) && n in staged && n !in done
    requires n in base ==> MergeTable(n, base[n], staged[n], locked, env).Ok?
    ensures PartlyMerged(base, staged, locked, env, done + {n}, merged[n := MergedAt(base, staged, locked, env, n)])
  {
    hide MergeTable;
  }

  lemma NothingMerged(base: Catalog, staged: Catalog, locked: set<string>, env: Env)
    ensures PartlyMerged(base, staged, locked, env, {}, base)
  {}

  lemma NotYetMerged(base: Catalog, staged: Catalog, locked: set<string>, env: Env, done: set<string>, merged: Catalog,
                     n: string)
    requires PartlyMerged(base, staged, locked, env, done, merged) && n in staged && n !in done
    ensures (n in merged <==> n in base) && (n in base ==> merged[n] == base[n])
  {
    hide MergeTable;
  }

  lemma MergeDone(base: Catalog, staged: Catalog, locked: set<string>, env: Env, merged: Catalog)
    requires PartlyMerged(base, staged, locked, env, staged.Keys, merged)
    ensures MergeCatalogs(base, staged, locked, env) == Ok(merged)
  {
    hide MergeTable;
    assert merged == MergeCatalogs(base, staged, locked, env).value;
  }

  method MergeAll(base: Catalog, staged: Catalog, locked: set<string>, env: Env) returns (r: Result<Catalog, Error>)
    ensures r == MergeCatalogs(base, staged, locked, env)
  {
    hide MergeTable, AscendingNames, MergeCatalogs, PartlyMerged;
    var names := AscendingNames(staged.Keys);
    var merged := base;
    ghost var done: set<string> := {};
    NothingMerged(base, staged, locked, env);
    var i := 0;
    while i < |names|
      invariant 0 <= i <= |names| && forall k :: k in done <==> k in names[..i]
      invariant PartlyMerged(base, staged, locked, env, done, merged)
    {
      var n := names[i];
      assert names[..i + 1] == names[..i] + [n];
      NotYetMerged(base, staged, locked, env, done, merged, n);
      if n in merged {
        var t := MergeInto(n, merged[n], staged[n], locked, env);
        if t.Err? {
          MergeFails(base, staged, locked, env, n);
          return Err(Execution);
        }
        MergeStep(base, staged, locked, env, done, merged, n);
        merged := merged[n := t.value];
      } else {
        MergeStep(base, staged, locked, env, done, merged, n);
        merged := merged[n := staged[n]];
      }
      done := done + {n};
      i := i + 1;
    }
    assert names[..i] == names;
    assert done == staged.Keys;
    MergeDone(base, staged, locked, env, merged);
    r := Ok(merged);
  }

  lemma MergeFails(base: Catalog, staged: Catalog, locked: set<string>, env: Env, n: string)
    requires n in base && n in staged && MergeTable(n, base[n], staged[n], locked, env).Err?
    ensures MergeCatalogs(base, staged, locked, env) == Err(Execution)
  {
    hide MergeTable;
  }
}
