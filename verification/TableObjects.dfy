/** The table as the mutable object it is in `storage/table.rs`. Each method works in place, loop by loop,
    and is proved to leave the value that `Tables` specifies. */
module TableObjects {
  import opened Basics
  import opened Values
  import opened Codec
  import opened Ast
  import opened Tables
  import opened TableFacts
  import opened Selects
  import opened AccessPaths

  // ---------------------------------------------------------------- adding one row to the maps

  function AddPosting(entries: map<string, set<nat>>, key: string, id: nat): map<string, set<nat>> {
    entries[key := Posting(entries, key) + {id}]
  }

  lemma PrimaryOkPart(rows: map<nat, Row>, part: map<nat, Row>, pk: string)
    requires PrimaryOk(rows, pk) && forall id :: id in part ==> id in rows && part[id] == rows[id]
    ensures PrimaryOk(part, pk)
  {}

  lemma PrimaryGrows(rows: map<nat, Row>, pk: string, id: nat, row: Row)
    requires id !in rows && PrimaryOk(rows[id := row], pk) && PrimaryOk(rows, pk) && pk in row && Finite(row[pk])
    ensures BuildPrimary(rows[id := row], pk) == BuildPrimary(rows, pk)[KeyAt(row, pk) := id]
  {
    hide KeyAt;
    var w := rows[id := row];
    assert w[id] == row && forall i :: i in rows ==> w[i] == rows[i];
    forall k ensures k in BuildPrimary(w, pk) <==> k in BuildPrimary(rows, pk)[KeyAt(row, pk) := id] {}
  }

  lemma EntryKeysGrow(rows: map<nat, Row>, column: string, id: nat, row: Row)
    requires id !in rows && ColumnIndexable(rows, column) && (column in row ==> Finite(row[column]))
    ensures ColumnIndexable(rows[id := row], column)
    ensures KeysOn(rows[id := row], column) ==
            KeysOn(rows, column) + (if column in row then {KeyAt(row, column)} else {})
  {
    hide KeyAt;
    var w := rows[id := row];
    assert w[id] == row && forall i :: i in rows ==> w[i] == rows[i];
    forall k | k in KeysOn(rows, column) ensures k in KeysOn(w, column) {
      var i :| i in rows && column in rows[i] && KeyAt(rows[i], column) == k;
      assert w[i] == rows[i];
    }
  }

  lemma EntriesGrow(rows: map<nat, Row>, column: string, id: nat, row: Row)
    requires id !in rows && ColumnIndexable(rows, column) && (column in row ==> Finite(row[column]))
    ensures ColumnIndexable(rows[id := row], column)
    ensures BuildEntries(rows[id := row], column) ==
            if column in row then AddPosting(BuildEntries(rows, column), KeyAt(row, column), id)
            else BuildEntries(rows, column)
  {
    hide KeyAt, BuildEntries, KeysOn, ColumnIndexable;
    EntryKeysGrow(rows, column, id, row);
    EntryKeys(rows, column);
    EntryKeys(rows[id := row], column);
    var was, now := BuildEntries(rows, column), BuildEntries(rows[id := row], column);
    forall k | k in now
      ensures now[k] == Posting(was, k) + (if column in row && k == KeyAt(row, column) then {id} else {})
    {
      EntryGrows(rows, column, id, row, k);
    }
    if column in row {
      var added := AddPosting(was, KeyAt(row, column), id);
      forall k ensures k in added <==> k in now {}
      forall k | k in now ensures now[k] == added[k] {}
      assert now == added;
    } else {
      forall k | k in was ensures k in now && now[k] == was[k] {}
      assert now == was;
    }
  }

  lemma EntryKeys(rows: map<nat, Row>, column: string)
    requires ColumnIndexable(rows, column)
    ensures BuildEntries(rows, column).Keys == KeysOn(rows, column)
  {}

  lemma EntryGrows(rows: map<nat, Row>, column: string, id: nat, row: Row, k: string)
    requires id !in rows && ColumnIndexable(rows, column) && ColumnIndexable(rows[id := row], column)
    requires (column in row ==> Finite(row[column])) && k in BuildEntries(rows[id := row], column)
    ensures BuildEntries(rows[id := row], column)[k] ==
            Posting(BuildEntries(rows, column), k) + (if column in row && k == KeyAt(row, column) then {id} else {})
  {
    hide KeyAt;
    var w := rows[id := row];
    assert w[id] == row && forall i :: i in rows ==> w[i] == rows[i];
    forall i ensures i in BuildEntries(w, column)[k] <==>
                     i in Posting(BuildEntries(rows, column), k) ||
                     (i == id && column in row && k == KeyAt(row, column))
    {
      if i in rows && column in rows[i] && KeyAt(rows[i], column) == k { assert k in KeysOn(rows, column); }
    }
  }

  /** The postings of the first `n` tokens of a row, on top of what was there. */
  function AddWords(entries: map<string, set<nat>>, words: seq<string>, id: nat): map<string, set<nat>> {
    if words == [] then entries else
      AddPosting(AddWords(entries, words[..|words| - 1], id), words[|words| - 1], id)
  }

  lemma {:induction false} AddWordsMeaning(entries: map<string, set<nat>>, words: seq<string>, id: nat)
    ensures forall w :: w in AddWords(entries, words, id) <==> w in entries || w in words
    ensures forall w ::
              Posting(AddWords(entries, words, id), w) == Posting(entries, w) + (if w in words then {id} else {})
  {
    if words != [] {
      AddWordsMeaning(entries, words[..|words| - 1], id);
      assert words == words[..|words| - 1] + [words[|words| - 1]];
    }
  }

  lemma WordsOnGrown(rows: map<nat, Row>, column: string, tok: string -> seq<string>, id: nat, row: Row)
    requires id !in rows
    ensures forall x :: x in BuildWords(rows[id := row], column, tok) <==>
                        x in BuildWords(rows, column, tok) || x in Words(row, column, tok)
  {
    hide Words;
    var w := rows[id := row];
    assert w[id] == row && forall i :: i in rows ==> w[i] == rows[i];
    forall x | x in BuildWords(rows, column, tok) ensures x in BuildWords(w, column, tok) {
      var i :| i in rows && x in Words(rows[i], column, tok);
      assert w[i] == rows[i];
    }
    assert forall x :: x in Words(row, column, tok) ==> x in Words(w[id], column, tok);
  }

  lemma WordsGrow(rows: map<nat, Row>, column: string, tok: string -> seq<string>, id: nat, row: Row)
    requires id !in rows
    ensures BuildWords(rows[id := row], column, tok) ==
            AddWords(BuildWords(rows, column, tok), Words(row, column, tok), id)
  {
    hide Words, AddWords, BuildWords;
    var w := rows[id := row];
    var words := Words(row, column, tok);
    var was, now := BuildWords(rows, column, tok), BuildWords(w, column, tok);
    var added := AddWords(was, words, id);
    AddWordsMeaning(was, words, id);
    WordsOnGrown(rows, column, tok, id, row);
    forall x | x in now ensures now[x] == added[x] {
      forall i ensures i in now[x] <==> i in Posting(added, x) {
        WordPosting(rows, column, tok, x, i);
        WordPosting(w, column, tok, x, i);
      }
      assert now[x] == Posting(added, x);
    }
  }

  /** One secondary index after one more row; fails on a value that cannot be indexed. */
  method AddToIndex(index: Index, id: nat, row: Row, ghost rows: map<nat, Row>) returns (r: Result<Index, Error>)
    requires id !in rows && ColumnIndexable(rows, index.column) && index.entries == BuildEntries(rows, index.column)
    ensures r.Ok? <==> (index.column in row ==> Finite(row[index.column]))
    ensures r.Ok? ==> ColumnIndexable(rows[id := row], index.column)
    ensures r.Ok? ==> r.value == Index(index.column, BuildEntries(rows[id := row], index.column))
  {
    hide BuildEntries, KeyAt, IndexKey;
    if index.column !in row {
      EntriesGrow(rows, index.column, id, row);
      return Ok(index);
    }
    IndexKeyNamesValue(row[index.column]);
    var key := IndexKey(row[index.column]);
    if key.Err? { return Err(Execution); }
    EntriesGrow(rows, index.column, id, row);
    KeyAtIs(row, index.column);
    r := Ok(Index(index.column, AddPosting(index.entries, key.value, id)));
  }

  /** The indexes rebuilt so far: those named in `done`. */
  ghost predicate IndexedSoFar(out: map<string, Index>, indexes: map<string, Index>, done: seq<string>,
                               rows: map<nat, Row>)
  {
    && (forall n :: n in out <==> n in done)
    && (forall n :: n in done ==> n in indexes && ColumnIndexable(rows, indexes[n].column))
    && (forall n :: n in done ==> out[n] == Index(indexes[n].column, BuildEntries(rows, indexes[n].column)))
  }

  lemma IndexedOneMore(out: map<string, Index>, indexes: map<string, Index>, done: seq<string>, rows: map<nat, Row>,
                       n: string, x: Index)
    requires IndexedSoFar(out, indexes, done, rows) && n in indexes && ColumnIndexable(rows, indexes[n].column)
    requires x == Index(indexes[n].column, BuildEntries(rows, indexes[n].column))
    ensures IndexedSoFar(out[n := x], indexes, done + [n], rows)
  {
    hide BuildEntries, ColumnIndexable;
  }

  lemma AllIndexed(out: map<string, Index>, indexes: map<string, Index>, done: seq<string>, rows: map<nat, Row>)
    requires IndexedSoFar(out, indexes, done, rows) && forall n :: n in indexes ==> n in done
    ensures forall n :: n in indexes ==> ColumnIndexable(rows, indexes[n].column)
    ensures out == BuildIndexes(rows, indexes)
  {
    hide BuildEntries, ColumnIndexable;
  }

  /** The secondary indexes after one more row. */
  method AddToIndexes(indexes: map<string, Index>, id: nat, row: Row, ghost rows: map<nat, Row>)
    returns (r: Result<map<string, Index>, Error>)
    requires id !in rows
    requires forall n :: n in indexes ==> ColumnIndexable(rows, indexes[n].column)
    requires forall n :: n in indexes ==> indexes[n].entries == BuildEntries(rows, indexes[n].column)
    ensures r.Err? ==> exists n :: n in indexes && indexes[n].column in row && !Finite(row[indexes[n].column])
    ensures r.Ok? ==> forall n :: n in indexes ==> ColumnIndexable(rows[id := row], indexes[n].column)
    ensures r.Ok? ==> r.value == BuildIndexes(rows[id := row], indexes)
  {
    hide BuildEntries, Finite, ColumnIndexable, AscendingNames, IndexedSoFar;
    var names := AscendingNames(indexes.Keys);
    ghost var grown := rows[id := row];
    var out: map<string, Index> := map[];
    var i := 0;
    NoneIndexed(indexes, names[..0], grown);
    while i < |names|
      invariant 0 <= i <= |names| && IndexedSoFar(out, indexes, names[..i], grown)
    {
      var n := names[i];
      assert names[..i + 1] == names[..i] + [n];
      var added := AddToIndex(indexes[n], id, row, rows);
      if added.Err? { return Err(Execution); }
      IndexedOneMore(out, indexes, names[..i], grown, n, added.value);
      out := out[n := added.value];
      i := i + 1;
    }
    assert names[..i] == names;
    AllIndexed(out, indexes, names, grown);
    r := Ok(out);
  }

  lemma NoneIndexed(indexes: map<string, Index>, done: seq<string>, rows: map<nat, Row>)
    requires done == []
    ensures IndexedSoFar(map[], indexes, done, rows)
  {}

  lemma KeyAtIs(row: Row, column: string)
    requires column in row && Finite(row[column])
    ensures IndexKey(row[column]).Ok? && KeyAt(row, column) == IndexKey(row[column]).value
  {
    IndexKeyNamesValue(row[column]);
  }

  method AddTokens(entries: map<string, set<nat>>, words: seq<string>, id: nat) returns (out: map<string, set<nat>>)
    ensures out == AddWords(entries, words, id)
  {
    out := entries;
    var i := 0;
    assert words[..0] == [];
    while i < |words|
      invariant 0 <= i <= |words| && out == AddWords(entries, words[..i], id)
    {
      assert words[..i + 1][..i] == words[..i];
      out := AddPosting(out, words[i], id);
      i := i + 1;
    }
    assert words[..i] == words;
  }

  /** The full-text indexes rebuilt so far: those named in `done`. */
  ghost predicate WordedSoFar(out: map<string, Index>, indexes: map<string, Index>, done: seq<string>,
                              rows: map<nat, Row>, tok: string -> seq<string>)
  {
    && (forall n :: n in out <==> n in done)
    && (forall n :: n in done ==>
        n in indexes && out[n] == Index(indexes[n].column, BuildWords(rows, indexes[n].column, tok)))
  }

  lemma NoneWorded(indexes: map<string, Index>, done: seq<string>, rows: map<nat, Row>, tok: string -> seq<string>)
    requires done == []
    ensures WordedSoFar(map[], indexes, done, rows, tok)
  {}

  lemma WordedOneMore(out: map<string, Index>, indexes: map<string, Index>, done: seq<string>, rows: map<nat, Row>,
                      tok: string -> seq<string>, n: string, x: Index)
    requires WordedSoFar(out, indexes, done, rows, tok) && n in indexes
    requires x == Index(indexes[n].column, BuildWords(rows, indexes[n].column, tok))
    ensures WordedSoFar(out[n := x], indexes, done + [n], rows, tok)
  {
    hide BuildWords;
  }

  lemma AllWorded(out: map<string, Index>, indexes: map<string, Index>, done: seq<string>, rows: map<nat, Row>,
                  tok: string -> seq<string>)
    requires WordedSoFar(out, indexes, done, rows, tok) && forall n :: n in indexes ==> n in done
    ensures out == BuildFulltext(rows, indexes, tok)
  {
    hide BuildWords;
  }

  /** The full-text indexes after one more row. */
  method AddToFulltext(indexes: map<string, Index>, id: nat, row: Row, tok: string -> seq<string>,
                       ghost rows: map<nat, Row>)
    returns (out: map<string, Index>)
    requires id !in rows
    requires forall n :: n in indexes ==> indexes[n].entries == BuildWords(rows, indexes[n].column, tok)
    ensures out == BuildFulltext(rows[id := row], indexes, tok)
  {
    hide BuildWords, BuildFulltext, AddWords, Words, AscendingNames, WordedSoFar;
    var names := AscendingNames(indexes.Keys);
    ghost var grown := rows[id := row];
    out := map[];
    var i := 0;
    NoneWorded(indexes, names[..0], grown, tok);
    while i < |names|
      invariant 0 <= i <= |names| && WordedSoFar(out, indexes, names[..i], grown, tok)
    {
      var n := names[i];
      assert names[..i + 1] == names[..i] + [n];
      WordsGrow(rows, indexes[n].column, tok, id, row);
      var entries := AddTokens(indexes[n].entries, Words(row, indexes[n].column, tok), id);
      WordedOneMore(out, indexes, names[..i], grown, tok, n, Index(indexes[n].column, entries));
      out := out[n := Index(indexes[n].column, entries)];
      i := i + 1;
    }
    assert names[..i] == names;
    AllWorded(out, indexes, names, grown, tok);
  }

  function Cleared(indexes: map<string, Index>): map<string, Index> {
    map n | n in indexes :: Index(indexes[n].column, map[])
  }

  lemma ClearedColumns(indexes: map<string, Index>)
    ensures SameDefinitions(Cleared(indexes), indexes)
  {}

  /** Equal up to index contents. */
  predicate SameData(t: Table, u: Table) {
    SameSchema(t, u) && t.rows == u.rows && t.nextRowId == u.nextRowId && t.primaryKey == u.primaryKey
  }

  lemma SameDataSteps(t: Table, u: Table, v: Table)
    requires SameData(t, u) && SameData(u, v)
    ensures SameData(t, v) && t.rows == v.rows
  {}

  lemma SameDataBuilds(t: Table, u: Table, tok: string -> seq<string>)
    requires SameData(t, u)
    ensures Buildable(t) <==> Buildable(u)
    ensures Buildable(t) ==> Built(t, tok) == Built(u, tok)
  {
    hide PrimaryOk, ColumnIndexable, BuildIndexes, BuildFulltext, BuildPrimary;
    SameFulltextBuild(t.rows, t.fulltext, u.fulltext, tok);
    if Buildable(u) { SameIndexesBuild(t.rows, t.indexes, u.indexes); }
    if Buildable(t) { SameIndexesBuild(t.rows, u.indexes, t.indexes); }
  }

  lemma SeenTwice(columns: seq<Column>, i: nat)
    requires i < |columns| && columns[i].name in Names(columns[..i])
    ensures !DistinctNames(columns)
  {
    var j :| 0 <= j < i && columns[..i][j].name == columns[i].name;
    assert columns[j].name == columns[i].name;
  }

  lemma KeyedTwice(columns: seq<Column>, i: nat)
    requires i < |columns| && columns[i].primaryKey && PrimaryColumn(columns[..i]).Some?
    ensures !OnePrimary(columns)
  {
    var j :| 0 <= j < i && columns[..i][j].primaryKey;
    assert columns[j].primaryKey;
  }

  lemma NoColumns()
    ensures Names([]) == {} && DistinctNames([]) && OnePrimary([]) && PrimaryColumn([]) == None
  {}

  /** The check `Table::new` runs over the columns: names unseen so far, at most one primary key. */
  method CreateTableValue(name: string, columns: seq<Column>) returns (r: Result<Table, Error>)
    ensures r == NewTable(name, columns)
  {
    hide Names, DistinctNames, OnePrimary, PrimaryColumn;
    var seen: set<string> := {};
    var primaryKey: Option<string> := None;
    var i := 0;
    NoColumns();
    assert columns[..0] == [];
    while i < |columns|
      invariant 0 <= i <= |columns|
      invariant seen == Names(columns[..i])
      invariant DistinctNames(columns[..i]) && OnePrimary(columns[..i])
      invariant primaryKey == PrimaryColumn(columns[..i])
    {
      var c := columns[i];
      assert columns[..i + 1] == columns[..i] + [c];
      if c.name in seen {
        SeenTwice(columns, i);
        return Err(Execution);
      }
      if c.primaryKey && primaryKey.Some? {
        KeyedTwice(columns, i);
        return Err(Execution);
      }
      PrimaryStep(columns[..i], c);
      if c.primaryKey { primaryKey := Some(c.name); }
      NamesStep(columns[..i], c);
      seen := seen + {c.name};
      i := i + 1;
    }
    assert columns[..i] == columns;
    r := Ok(Table(name, columns, map[], 1, primaryKey, map[], map[], map[]));
  }

  lemma NamesStep(columns: seq<Column>, c: Column)
    ensures Names(columns + [c]) == Names(columns) + {c.name}
    ensures DistinctNames(columns) && c.name !in Names(columns) ==> DistinctNames(columns + [c])
  {
    var w := columns + [c];
    assert forall i :: 0 <= i < |columns| ==> w[i] == columns[i];
    assert w[|columns|] == c;
    forall n | n in Names(columns) ensures n in Names(w) {
      var i :| 0 <= i < |columns| && columns[i].name == n;
      assert w[i].name == n;
    }
    if DistinctNames(columns) && c.name !in Names(columns) {
      forall i, j | 0 <= i < j < |w| ensures w[i].name != w[j].name {
        assert columns[i].name in Names(columns);
      }
    }
  }

  lemma {:induction false} PrimaryStep(columns: seq<Column>, c: Column)
    requires OnePrimary(columns) && (c.primaryKey ==> PrimaryColumn(columns).None?)
    ensures OnePrimary(columns + [c])
    ensures PrimaryColumn(columns + [c]) == if c.primaryKey then Some(c.name) else PrimaryColumn(columns)
  {
    var w := columns + [c];
    assert forall i :: 0 <= i < |columns| ==> w[i] == columns[i];
    if columns == [] {
      assert w[1..] == [];
    } else {
      assert w[1..] == columns[1..] + [c];
      assert forall i :: 0 <= i < |columns| - 1 ==> columns[1..][i] == columns[i + 1];
      if !columns[0].primaryKey { PrimaryStep(columns[1..], c); }
    }
  }

  /** The rows with the first `k` of the given ids. */
  ghost predicate IsPart(part: map<nat, Row>, rows: map<nat, Row>, ids: seq<nat>, k: nat) {
    && k <= |ids|
    && (forall id :: id in part <==> id in ids[..k])
    && (forall id :: id in part ==> id in rows && part[id] == rows[id])
  }

  lemma NoPart(rows: map<nat, Row>, ids: seq<nat>)
    ensures IsPart(map[], rows, ids, 0)
  {}

  lemma PartGrows(part: map<nat, Row>, rows: map<nat, Row>, ids: seq<nat>, k: nat)
    requires k < |ids| && StrictlyAscending(ids) && (forall id :: id in ids ==> id in rows) &&
             IsPart(part, rows, ids, k)
    ensures ids[k] in rows && ids[k] !in part
    ensures IsPart(part[ids[k] := rows[ids[k]]], rows, ids, k + 1)
    ensures var grown := part[ids[k] := rows[ids[k]]]; forall id :: id in grown ==> id in rows && grown[id] == rows[id]
  {
    assert ids[..k + 1] == ids[..k] + [ids[k]];
  }

  lemma WholePart(part: map<nat, Row>, rows: map<nat, Row>, k: nat)
    requires k == |Ascending(rows.Keys)| && IsPart(part, rows, Ascending(rows.Keys), k)
    ensures part == rows
  {
    hide Ascending;
    var ids := Ascending(rows.Keys);
    assert ids[..k] == ids;
    assert forall id :: id in part <==> id in rows;
  }

  class TableObject {
    var name: string
    var columns: seq<Column>
    var rows: map<nat, Row>
    var nextRowId: nat
    var primaryKey: Option<string>
    var primary: map<string, nat>
    var indexes: map<string, Index>
    var fulltext: map<string, Index>

    function Value(): Table
      reads this
    {
      Table(name, columns, rows, nextRowId, primaryKey, primary, indexes, fulltext)
    }

    constructor (t: Table)
      ensures Value() == t
    {
      name, columns, rows, nextRowId := t.name, t.columns, t.rows, t.nextRowId;
      primaryKey, primary, indexes, fulltext := t.primaryKey, t.primary, t.indexes, t.fulltext;
    }

    /** `rebuild_indexes_with_options`: clear the maps, then add row after row. It succeeds exactly on
        buildable rows; when it fails it may leave the maps half filled. */
    method RebuildIndexes(tok: string -> seq<string>) returns (r: Result<(), Error>)
      modifies this`primary, this`indexes, this`fulltext
      ensures r.Ok? <==> Buildable(old(Value()))
      ensures r.Ok? ==> Value() == Built(old(Value()), tok)
      ensures r.Err? ==> r.error == Execution
      ensures SameData(Value(), old(Value()))
    {
      hide Filled, Buildable, Built, Ascending, SameData, IsPart;
      ghost var before := Value();
      Clear(tok);
      var ids := Ascending(rows.Keys);
      ghost var part: map<nat, Row> := map[];
      var i := 0;
      NoPart(rows, ids);
      while i < |ids|
        invariant 0 <= i <= |ids| && IsPart(part, rows, ids, i)
        invariant SameData(Value(), before)
        invariant Filled(Value(), part, tok)
      {
        ghost var was := Value();
        PartGrows(part, rows, ids, i);
        var ok := AddRow(ids[i], rows[ids[i]], tok, part);
        SameDataSteps(Value(), was, before);
        part := part[ids[i] := rows[ids[i]]];
        if !ok {
          PartFails(before, was, part);
          return Err(Execution);
        }
        i := i + 1;
      }
      WholePart(part, rows, i);
      r := Ok(());
      FilledAll(before, Value(), tok);
    }

    /** Empty every index map, keeping the definitions. */
    method Clear(tok: string -> seq<string>)
      modifies this`primary, this`indexes, this`fulltext
      ensures SameData(Value(), old(Value())) && Filled(Value(), map[], tok)
    {
      ClearedColumns(indexes);
      ClearedColumns(fulltext);
      hide Filled;
      primary := map[];
      indexes := Cleared(indexes);
      fulltext := Cleared(fulltext);
      ClearedFilled(Value(), tok);
    }

    /** One row's entries in every index map. */
    method AddRow(id: nat, row: Row, tok: string -> seq<string>, ghost part: map<nat, Row>) returns (ok: bool)
      requires id !in part && Filled(Value(), part, tok)
      modifies this`primary, this`indexes, this`fulltext
      ensures SameData(Value(), old(Value()))
      ensures ok ==> Filled(Value(), part[id := row], tok)
      ensures !ok ==> !Buildable(old(Value()).(rows := part[id := row]))
    {
      hide BuildEntries, BuildWords, KeyAt, IndexKey, BuildPrimary, PrimaryOk;
      if primaryKey.Some? {
        var fits := AddPrimary(id, row, part);
        if !fits { return false; }
      }
      var added := AddToIndexes(indexes, id, row, part);
      if added.Err? {
        NotIndexable(part, indexes, id, row);
        return false;
      }
      IndexesRenamed(part[id := row], indexes, added.value);
      indexes := added.value;
      var words := AddToFulltext(fulltext, id, row, tok, part);
      FulltextRenamed(part[id := row], fulltext, words, tok);
      fulltext := words;
      ok := true;
    }

    /** One row's entry in the primary map; refused when the key is missing, null, not indexable or taken. */
    method AddPrimary(id: nat, row: Row, ghost part: map<nat, Row>) returns (ok: bool)
      requires primaryKey.Some? && id !in part && PrimaryOk(part, primaryKey.value)
      requires primary == BuildPrimary(part, primaryKey.value)
      modifies this`primary
      ensures ok <==> PrimaryOk(part[id := row], primaryKey.value)
      ensures ok ==> primary == BuildPrimary(part[id := row], primaryKey.value)
    {
      hide IndexKey;
      var pk := primaryKey.value;
      ghost var grown := part[id := row];
      assert grown[id] == row;
      if pk !in row || row[pk].Null? { return false; }
      IndexKeyNamesValue(row[pk]);
      var key := IndexKey(row[pk]);
      if key.Err? { return false; }
      assert key.value == KeyAt(row, pk);
      var taken := key.value in primary;
      if taken {
        ghost var other :| other in part && KeyAt(part[other], pk) == key.value;
        assert grown[other] == part[other] && KeyAt(grown[other], pk) == KeyAt(grown[id], pk) && other != id;
      } else {
        AddedKeyUnique(part, pk, id, row);
        PrimaryGrows(part, pk, id, row);
      }
      primary := primary[key.value := id];
      ok := !taken;
    }

    // -------------------------------------------------------------- operations

    /** `create_index`: always rebuilt with the simple tokeniser. */
    method CreateIndex(indexName: string, column: string, env: Env) returns (r: Result<(), Error>)
      modifies this`primary, this`indexes, this`fulltext
      ensures r.Ok? <==> AddIndex(old(Value()), indexName, column, env).Ok?
      ensures r.Err? ==> r.error == AddIndex(old(Value()), indexName, column, env).error
      ensures r.Ok? ==> Value() == AddIndex(old(Value()), indexName, column, env).value
      ensures r.Err? && Core(old(Value())) ==> Value() == old(Value())
    {
      hide Buildable, Built, FindColumn, SameDefinitions;
      AddIndexIfCore(Value(), indexName, column, env);
      hide Core;
      if FindColumn(columns, column).None? { return Err(Execution); }
      if indexName in indexes || indexName in fulltext { return Err(Execution); }
      indexes := indexes[indexName := Index(column, map[])];
      r := RebuildIndexes(Tok(env, Simple));
    }

    /** `create_fulltext_index_with_options`. */
    method CreateFulltext(indexName: string, column: string, env: Env) returns (r: Result<(), Error>)
      modifies this`primary, this`indexes, this`fulltext
      ensures r.Ok? <==> AddFulltext(old(Value()), indexName, column, env).Ok?
      ensures r.Err? ==> r.error == AddFulltext(old(Value()), indexName, column, env).error
      ensures r.Ok? ==> Value() == AddFulltext(old(Value()), indexName, column, env).value
      ensures r.Err? && Core(old(Value())) ==> Value() == old(Value())
    {
      hide Buildable, Built, FindColumn, SameDefinitions;
      if Core(Value()) { AddFulltextSound(Value(), indexName, column, env); }
      hide Core;
      var c := FindColumn(columns, column);
      if c.None? { return Err(Execution); }
      if !c.value.ty.TextType? { return Err(Execution); }
      if indexName in indexes || indexName in fulltext { return Err(Execution); }
      fulltext := fulltext[indexName := Index(column, map[])];
      r := RebuildIndexes(Tok(env, env.tokenizer));
    }

    /** The row an INSERT builds, value by value. */
    method BuildRow(targets: Option<seq<string>>, values: seq<Value>, env: Env) returns (r: Result<Row, Error>)
      ensures r == NewRow(Value(), targets, values, env)
    {
      hide FindColumn, ValidateValue;
      var names := if targets.Some? then targets.value else ColumnNames(columns);
      if |names| != |values| { return Err(Execution); }
      var row := NullRow(columns);
      ghost var start := row;
      var i := 0;
      while i < |names|
        invariant 0 <= i <= |names|
        invariant FillRow(columns, names, values, env, start) == FillRow(columns, names[i..], values[i..], env, row)
      {
        assert names[i..][1..] == names[i + 1..] && values[i..][1..] == values[i + 1..];
        var c := FindColumn(columns, names[i]);
        if c.None? { return Err(Execution); }
        var v := ValidateValue(c.value, values[i], env);
        if v.Err? { return Err(v.error); }
        row := row[c.value.name := v.value];
        i := i + 1;
      }
      r := Ok(row);
    }

    /** `insert_with_options`. No copy is kept: a failed INSERT changes nothing because, from a sound table,
        the rebuild at the end cannot fail. */
    method Insert(targets: Option<seq<string>>, values: seq<Value>, env: Env) returns (r: Result<(), Error>)
      modifies this
      ensures r.Ok? <==> InsertRow(old(Value()), targets, values, env).Ok?
      ensures r.Err? ==> r.error == InsertRow(old(Value()), targets, values, env).error
      ensures r.Ok? ==> Value() == InsertRow(old(Value()), targets, values, env).value
      ensures r.Err? && Core(old(Value())) ==> Value() == old(Value())
    {
      hide Buildable, Built, SameDefinitions, NewRow, PrimaryFree;
      ghost var before := Value();
      var built := BuildRow(targets, values, env);
      if built.Err? { return Err(built.error); }
      if !PrimaryFree(Value(), built.value) { return Err(Execution); }
      if Core(before) { InsertSound(before, targets, values, env); }
      hide Core;
      rows := rows[nextRowId := built.value];
      nextRowId := nextRowId + 1;
      assert Value() == WithRow(before, built.value);
      r := RebuildIndexes(Tok(env, env.tokenizer));
    }

    /** The assignments of an UPDATE, resolved and validated one by one. */
    method ResolveAssignments(assignments: seq<(string, Value)>, env: Env)
      returns (r: Result<seq<(string, Value)>, Error>)
      ensures r == NormalizeAssignments(columns, assignments, env)
    {
      hide FindColumn, ValidateValue;
      var norm: seq<(string, Value)> := [];
      var i := 0;
      assert assignments[0..] == assignments;
      PrependedNone(NormalizeAssignments(columns, assignments, env));
      while i < |assignments|
        invariant 0 <= i <= |assignments|
        invariant NormalizeAssignments(columns, assignments, env) ==
                  Prepended(norm, NormalizeAssignments(columns, assignments[i..], env))
      {
        assert assignments[i..][1..] == assignments[i + 1..];
        var c := FindColumn(columns, assignments[i].0);
        if c.None? { return Err(Execution); }
        var v := ValidateValue(c.value, assignments[i].1, env);
        if v.Err? { return Err(v.error); }
        PrependedStep(norm, (c.value.name, v.value), NormalizeAssignments(columns, assignments[i + 1..], env));
        norm := norm + [(c.value.name, v.value)];
        i := i + 1;
      }
      assert norm + [] == norm;
      r := Ok(norm);
    }

    /** The rows with the matched ones overwritten, on a copy. */
    method AssignRows(ids: seq<nat>, norm: seq<(string, Value)>) returns (updated: map<nat, Row>)
      requires forall id :: id in ids ==> id in rows
      requires forall i, j :: 0 <= i < j < |ids| ==> ids[i] != ids[j]
      ensures updated == AssignAll(rows, ids, norm)
    {
      hide Assign;
      updated := rows;
      assert updated == AssignAll(rows, ids[..0], norm);
      var i := 0;
      while i < |ids|
        invariant 0 <= i <= |ids| && updated == AssignAll(rows, ids[..i], norm)
      {
        var id := ids[i];
        assert id !in ids[..i] && ids[..i + 1] == ids[..i] + [id];
        var row := AssignRow(updated[id], norm);
        updated := updated[id := row];
        i := i + 1;
        assert updated == AssignAll(rows, ids[..i], norm);
      }
      assert ids[..i] == ids;
    }

    /** The row ids in vector-distance order. */
    method OrderIds(ids: seq<nat>, order: Option<Order>, env: Env) returns (r: Result<seq<nat>, Error>)
      ensures r == OrderedIds(Value(), ids, order, env)
    {
      hide FindColumn, ScorePass, SortScored;
      if order.None? { return Ok(ids); }
      var o := order.value;
      var c := FindColumn(columns, o.column);
      if c.None? || !c.value.ty.VectorType? { return Err(Execution); }
      if env.dimensions.Some? && |o.target| != env.dimensions.value { return Err(Execution); }
      var scored := VectorScores(rows, ids, o.column, o.target, env);
      if scored.Err? { return Err(Execution); }
      r := Ok(RowIds(SortScored(scored.value, o.descending)));
    }

    /** `select_with_options`. */
    method Select(projection: Projection, filter: Option<Filter>, order: Option<Order>, limit: Option<nat>, env: Env)
      returns (r: Result<seq<Row>, Error>)
      ensures r == SelectRows(Value(), projection, filter, order, limit, env)
    {
      hide ProjectionOk, NormalizeFilter, MatchIds, OrderedIds, ProjectAll;
      if !ProjectionOk(columns, projection) { return Err(Execution); }
      var f := NormalizeFilter(columns, filter, env);
      if f.Err? { return Err(f.error); }
      var matched := MatchIds(Value(), f.value, env);
      if matched.Err? { return Err(matched.error); }
      var ordered := OrderIds(matched.value, order, env);
      if ordered.Err? { return Err(ordered.error); }
      var ids := if limit.Some? && limit.value < |ordered.value| then ordered.value[..limit.value] else ordered.value;
      var out := ProjectRows(rows, ids, projection);
      r := Ok(out);
    }

    /** `update_with_options`: a failed rebuild puts the original rows back and rebuilds again. */
    method Update(assignments: seq<(string, Value)>, filter: Option<Filter>, env: Env) returns (r: Result<nat, Error>)
      requires Sound(Value(), env)
      modifies this
      ensures r == UpdateRows(old(Value()), assignments, filter, env).1
      ensures Value() == UpdateRows(old(Value()), assignments, filter, env).0
    {
      hide NormalizeAssignments, AssignAll, SameDefinitions, MatchIds, NormalizeFilter, Sound, Buildable, Built;
      ghost var before := Value();
      UpdateFacts(before, filter, env);
      var f := NormalizeFilter(columns, filter, env);
      if f.Err? { return Err(f.error); }
      var ids := MatchIds(Value(), f.value, env);
      if ids.Err? { return Err(ids.error); }
      var norm := ResolveAssignments(assignments, env);
      if norm.Err? { return Err(norm.error); }
      var original := rows;
      var updated := AssignRows(ids.value, norm.value);
      rows := updated;
      var built := RebuildIndexes(Tok(env, env.tokenizer));
      if built.Err? {
        rows := original;
        SameDataBuilds(Value(), before, Tok(env, env.tokenizer));
        var _ := RebuildIndexes(Tok(env, env.tokenizer));
        return Err(built.error);
      }
      r := Ok(|ids.value|);
    }

    /** `delete_with_options`. */
    method Delete(filter: Option<Filter>, env: Env) returns (r: Result<nat, Error>)
      modifies this
      ensures r.Ok? <==> DeleteRows(old(Value()), filter, env).Ok?
      ensures r.Err? ==> r.error == DeleteRows(old(Value()), filter, env).error
      ensures r.Ok? ==> (Value(), r.value) == DeleteRows(old(Value()), filter, env).value
      ensures r.Err? && Core(old(Value())) ==> Value() == old(Value())
    {
      hide Buildable, Built, SameDefinitions, MatchIds, NormalizeFilter;
      ghost var before := Value();
      if Core(before) { DeleteSound(before, filter, env); }
      hide Core;
      var f := NormalizeFilter(columns, filter, env);
      if f.Err? { return Err(f.error); }
      var ids := MatchIds(Value(), f.value, env);
      if ids.Err? { return Err(ids.error); }
      assert rows == WithoutRows(before.rows, ids.value[..0]);
      var i := 0;
      while i < |ids.value|
        invariant 0 <= i <= |ids.value| && Value() == before.(rows := WithoutRows(before.rows, ids.value[..i]))
      {
        assert ids.value[..i + 1] == ids.value[..i] + [ids.value[i]];
        rows := rows - {ids.value[i]};
        i := i + 1;
        assert rows == WithoutRows(before.rows, ids.value[..i]);
      }
      assert ids.value[..i] == ids.value;
      var built := RebuildIndexes(Tok(env, env.tokenizer));
      if built.Err? { return Err(built.error); }
      r := Ok(|ids.value|);
    }
  }

  /** One row overwritten, assignment by assignment. */
  method AssignRow(row: Row, norm: seq<(string, Value)>) returns (out: Row)
    ensures out == Assign(row, norm)
  {
    out := row;
    var i := 0;
    while i < |norm|
      invariant 0 <= i <= |norm| && Assign(row, norm) == Assign(out, norm[i..])
    {
      assert norm[i..][1..] == norm[i + 1..];
      out := out[norm[i].0 := norm[i].1];
      i := i + 1;
    }
  }

  function Prepended<T, E>(done: seq<T>, rest: Result<seq<T>, E>): Result<seq<T>, E> {
    match rest
    case Err(e) => Err(e)
    case Ok(q) => Ok(done + q)
  }

  lemma PrependedNone<T, E>(rest: Result<seq<T>, E>)
    ensures Prepended([], rest) == rest
  {
    if rest.Ok? { assert [] + rest.value == rest.value; }
  }

  lemma PrependedStep<T, E>(done: seq<T>, x: T, rest: Result<seq<T>, E>)
    ensures Prepended(done, Prepended([x], rest)) == Prepended(done + [x], rest)
  {
    if rest.Ok? { assert done + ([x] + rest.value) == done + [x] + rest.value; }
  }

  lemma AddIndexIfCore(t: Table, name: string, column: string, env: Env)
    ensures Core(t) && FindColumn(t.columns, column).Some? && !NameTaken(t, name) ==> AddIndex(t, name, column, env).Ok?
  {
    hide Core;
    if Core(t) { AddIndexSound(t, name, column, env); }
  }

  /** What an UPDATE relies on: matched ids are rows, each matched once, and the old rows can be indexed again. */
  lemma UpdateFacts(t: Table, filter: Option<Filter>, env: Env)
    requires Sound(t, env)
    ensures Buildable(t)
    ensures var m := Matching(t, filter, env);
            m.Ok? ==>
              && (forall id :: id in m.value ==> id in t.rows)
              && forall i, j :: 0 <= i < j < |m.value| ==> m.value[i] != m.value[j]
  {
    hide Sound, Shape, Buildable, BuildPrimary, BuildIndexes, Matching;
    SoundIsCore(t, env);
    if Matching(t, filter, env).Ok? {
      MatchingInRows(t, filter, env);
      MatchingDistinct(t, filter, env);
    }
  }

  lemma MatchingDistinct(t: Table, filter: Option<Filter>, env: Env)
    requires Matching(t, filter, env).Ok?
    ensures var ids := Matching(t, filter, env).value; forall i, j :: 0 <= i < j < |ids| ==> ids[i] != ids[j]
  {
    hide Ascending, Hits, Intersect, IndexOn, Posting, IndexKey, NormalizeFilter;
  }

  /** The index maps hold exactly the rows in `part`. */
  predicate Filled(t: Table, part: map<nat, Row>, tok: string -> seq<string>) {
    Buildable(t.(rows := part)) && Built(t.(rows := part), tok) == t.(rows := part)
  }

  lemma ClearedFilled(t: Table, tok: string -> seq<string>)
    requires t.primary == map[] && t.indexes == Cleared(t.indexes) && t.fulltext == Cleared(t.fulltext)
    ensures Filled(t, map[], tok)
  {
    assert forall column :: BuildEntries(map[], column) == map[];
    assert forall column :: BuildWords(map[], column, tok) == map[];
    assert BuildIndexes(map[], t.indexes) == t.indexes;
    assert BuildFulltext(map[], t.fulltext, tok) == t.fulltext;
    assert t.primaryKey.Some? ==> BuildPrimary(map[], t.primaryKey.value) == map[];
  }

  lemma FilledAll(before: Table, t: Table, tok: string -> seq<string>)
    requires SameData(t, before) && Filled(t, t.rows, tok)
    ensures Buildable(before) && t == Built(before, tok)
  {
    hide Buildable, Built, SameData;
    SameDataBuilds(t, before, tok);
    assert t.(rows := t.rows) == t;
  }

  /** Some of the rows can be indexed whenever all of them can. */
  lemma BuildablePart(before: Table, t: Table, part: map<nat, Row>)
    requires SameData(t, before) && Buildable(before)
    requires forall id :: id in part ==> id in t.rows && part[id] == t.rows[id]
    ensures Buildable(t.(rows := part))
  {
    if before.primaryKey.Some? { PrimaryOkPart(before.rows, part, before.primaryKey.value); }
    assert forall n :: n in t.indexes ==> ColumnIndexable(part, t.indexes[n].column);
  }

  lemma PartFails(before: Table, t: Table, part: map<nat, Row>)
    requires SameData(t, before) && !Buildable(t.(rows := part))
    requires forall id :: id in part ==> id in t.rows && part[id] == t.rows[id]
    ensures !Buildable(before)
  {
    hide Buildable, SameData;
    if Buildable(before) { BuildablePart(before, t, part); }
  }

  lemma NotIndexable(part: map<nat, Row>, indexes: map<string, Index>, id: nat, row: Row)
    requires exists n :: n in indexes && indexes[n].column in row && !Finite(row[indexes[n].column])
    ensures exists n :: n in indexes && !ColumnIndexable(part[id := row], indexes[n].column)
  {
    var n :| n in indexes && indexes[n].column in row && !Finite(row[indexes[n].column]);
    assert part[id := row][id] == row;
  }

  lemma IndexesRenamed(rows: map<nat, Row>, a: map<string, Index>, b: map<string, Index>)
    requires forall n :: n in a ==> ColumnIndexable(rows, a[n].column)
    requires b == BuildIndexes(rows, a)
    ensures SameDefinitions(a, b) && (forall n :: n in b ==> ColumnIndexable(rows, b[n].column)) &&
            b == BuildIndexes(rows, b)
  {
    hide BuildEntries, ColumnIndexable;
  }

  lemma FulltextRenamed(rows: map<nat, Row>, a: map<string, Index>, b: map<string, Index>, tok: string -> seq<string>)
    requires b == BuildFulltext(rows, a, tok)
    ensures SameDefinitions(a, b) && b == BuildFulltext(rows, b, tok)
  {
    hide BuildWords;
  }
}
