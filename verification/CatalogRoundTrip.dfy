/** Reading back what was written: decoding an encoded catalog gives the same tables, columns, rows and
    rebuilt indexes, with the next row id lowered to the least one the rows allow. */
module CatalogRoundTrip {
  import opened Basics
  import opened Text
  import opened Values
  import opened Codec
  import opened Ast
  import opened Tables
  import opened TableFacts
  import opened Catalogs

  // ---------------------------------------------------------------- what reading back yields

  predicate Above(rows: map<nat, Row>, n: nat) { forall id :: id in rows ==> id < n }

  /** The least row id of at least 1 that is above every stored one. */
  function LeastNext(rows: map<nat, Row>): (n: nat)
    ensures n >= 1 && Above(rows, n)
    ensures forall m :: m >= 1 && Above(rows, m) ==> n <= m
  {
    var ids := Ascending(rows.Keys);
    assert forall id :: id in rows ==> id in ids;
    assert |ids| > 0 ==> ids[|ids| - 1] in rows;
    if ids == [] then 1 else ids[|ids| - 1] + 1
  }

  /** A table as a reopened database has it: indexes refilled with the configured tokeniser. */
  function Reread(t: Table, env: Env): Table
    requires Buildable(t)
  {
    Built(t, Tok(env, env.tokenizer)).(nextRowId := LeastNext(t.rows))
  }

  ghost predicate Storable(c: Catalog) {
    forall n :: n in c ==> c[n].name == n && Core(c[n])
  }

  ghost function Reopened(c: Catalog, env: Env): Catalog
    requires Storable(c)
  {
    map n | n in c :: Reread(c[n], env)
  }

  // ---------------------------------------------------------------- lines and fields

  predicate LineSafe(s: string) { '\t' !in s && '\n' !in s && '\r' !in s }

  lemma {:induction false} JoinPlain(parts: seq<string>)
    requires forall i :: 0 <= i < |parts| ==> LineSafe(parts[i])
    ensures PlainLine(Join(parts, '\t'))
  {
    if |parts| > 1 {
      JoinPlain(parts[1..]);
      PlainJoin(parts[0], Join(parts[1..], '\t'));
    }
  }

  lemma PlainJoin(a: string, b: string)
    requires LineSafe(a) && PlainLine(b)
    ensures PlainLine(a + ['\t'] + b)
  {}

  lemma JoinStarts(parts: seq<string>)
    requires parts != [] && parts[0] != []
    ensures Join(parts, '\t') != []
  {}

  predicate GoodFields(fields: seq<string>) {
    fields != [] && fields[0] != [] && forall i :: 0 <= i < |fields| ==> LineSafe(fields[i])
  }

  lemma LineDecodes(st: Decoding, fields: seq<string>, env: Env)
    requires GoodFields(fields)
    ensures PlainLine(Line(fields))
    ensures DecodeLine(st, Line(fields), env) == DecodeParts(st, fields, env)
  {
    hide DecodeParts, Join, Split;
    JoinPlain(fields);
    JoinStarts(fields);
    assert forall i :: 0 <= i < |fields| ==> '\t' !in fields[i];
    SplitOfJoin(fields, '\t');
  }

  // ---------------------------------------------------------------- chains of steps

  lemma {:induction false} DecodeAppend(st: Decoding, a: seq<string>, b: seq<string>, env: Env)
    ensures DecodeLines(st, a + b, env) ==
            match DecodeLines(st, a, env) case Err(e) => Err(e) case Ok(mid) => DecodeLines(mid, b, env)
    decreases a
  {
    hide DecodeLine;
    if a == [] {
      assert a + b == b;
    } else {
      assert (a + b)[0] == a[0] && (a + b)[1..] == a[1..] + b;
      var next := DecodeLine(st, a[0], env);
      if next.Ok? { DecodeAppend(next.value, a[1..], b, env); }
    }
  }

  /** If each line takes each state to the next, the lines take the first state to the last. */
  lemma {:induction false} DecodeChain(states: seq<Decoding>, lines: seq<string>, env: Env)
    requires |states| == |lines| + 1
    requires forall k :: 0 <= k < |lines| ==> DecodeLine(states[k], lines[k], env) == Ok(states[k + 1])
    ensures DecodeLines(states[0], lines, env) == Ok(states[|lines|])
  {
    hide DecodeLine;
    if lines != [] { DecodeChain(states[1..], lines[1..], env); }
  }

  // ---------------------------------------------------------------- columns

  function ColumnsRead(t: Table, k: nat): Table
    requires k <= |t.columns|
  {
    EmptyTable(t.name).(columns := t.columns[..k], primaryKey := PrimaryColumn(t.columns[..k]))
  }

  lemma {:induction false} PrimarySnoc(columns: seq<Column>, c: Column)
    requires OnePrimary(columns + [c])
    ensures c.primaryKey ==> PrimaryColumn(columns).None?
    ensures PrimaryColumn(columns + [c]) == if c.primaryKey then Some(c.name) else PrimaryColumn(columns)
  {
    if columns != [] {
      assert (columns + [c])[1..] == columns[1..] + [c];
      assert forall i :: 0 <= i < |columns| ==> (columns + [c])[i] == columns[i];
      assert (columns + [c])[|columns|] == c;
      assert OnePrimary(columns[1..] + [c]) by {
        assert forall i :: 0 <= i < |columns| ==> (columns[1..] + [c])[i] == (columns + [c])[i + 1];
      }
      PrimarySnoc(columns[1..], c);
    } else {
      assert [c][1..] == [];
    }
  }

  lemma TypeNameParses(ty: ColumnType)
    ensures ParseType(TypeName(ty)) == Ok(ty) && LineSafe(TypeName(ty)) && TypeName(ty) != []
  {
    hide LowerAscii, Trim;
    match ty
    case IntegerType => LettersFixed("integer");
    case FloatType => LettersFixed("float");
    case BooleanType => LettersFixed("boolean");
    case TextType => LettersFixed("text");
    case VectorType => LettersFixed("vector");
    case PointType => LettersFixed("point");
  }

  lemma LettersFixed(s: string)
    requires s != [] && forall i :: 0 <= i < |s| ==> 'a' <= s[i] <= 'z'
    ensures LowerAscii(Trim(s)) == s && LineSafe(s)
  {
    TrimmedFixed(s);
    LowerFixed(s);
  }

  lemma {:induction false} LowerFixed(s: string)
    requires forall i :: 0 <= i < |s| ==> !('A' <= s[i] <= 'Z')
    ensures LowerAscii(s) == s
  {
    if s != [] {
      LowerFixed(s[1..]);
      assert s == [s[0]] + s[1..];
    }
  }

  lemma ColumnFieldsGood(c: Column)
    ensures GoodFields(ColumnFields(c))
  {
    EncodeStringSafe(c.name);
    TypeNameParses(c.ty);
  }

  lemma ColumnDecodes(t: Table, k: nat)
    requires k < |t.columns| && DistinctNames(t.columns) && OnePrimary(t.columns)
    ensures DecodeColumn(ColumnsRead(t, k), ColumnFields(t.columns[k])) == Ok(ColumnsRead(t, k + 1))
  {
    hide ParseType, TypeName, EncodeString, DecodeString, PrimaryColumn;
    var c := t.columns[k];
    StringRoundTrip(c.name);
    TypeNameParses(c.ty);
    var read := t.columns[..k];
    assert t.columns[..k + 1] == read + [c];
    assert c.name !in Names(read);
    assert OnePrimary(read + [c]);
    PrimarySnoc(read, c);
  }

  // ---------------------------------------------------------------- index definitions

  function Definitions(indexes: map<string, Index>, names: seq<string>): map<string, Index>
    requires forall i :: 0 <= i < |names| ==> names[i] in indexes
  {
    map n | n in names :: Index(indexes[n].column, map[])
  }

  /** The definitions as the file stores them, without contents. */
  function Stored(indexes: map<string, Index>): map<string, Index> {
    Definitions(indexes, AscendingNames(indexes.Keys))
  }

  lemma DefinitionsSnoc(indexes: map<string, Index>, names: seq<string>, k: nat)
    requires k < |names| && forall i :: 0 <= i < |names| ==> names[i] in indexes
    ensures Definitions(indexes, names[..k + 1]) ==
            Definitions(indexes, names[..k])[names[k] := Index(indexes[names[k]].column, map[])]
  {
    assert names[..k + 1] == names[..k] + [names[k]];
  }

  lemma DefinitionDecodes(tag: string, name: string, column: string)
    requires tag != [] && LineSafe(tag)
    ensures GoodFields(DefinitionFields(tag, name, column))
    ensures DecodeDefinition(DefinitionFields(tag, name, column)) == Ok((name, column))
  {
    StringRoundTrip(name);
    StringRoundTrip(column);
    EncodeStringSafe(name);
    EncodeStringSafe(column);
  }

  // ---------------------------------------------------------------- rows

  function RowPart(row: Row, names: seq<string>): Row
    requires forall i :: 0 <= i < |names| ==> names[i] in row
  {
    map n | n in names :: row[n]
  }

  lemma CellDecodes(column: string, v: Value)
    ensures DecodeCell(CellText(column, v)) == Ok((column, v)) && LineSafe(CellText(column, v))
  {
    hide EncodeString, DecodeString, EncodeValue, DecodeValue;
    StringRoundTrip(column);
    ValueRoundTrip(v);
    EncodeStringSafe(column);
    EncodeValueSafe(v);
    IndexOfCut(EncodeString(column), '=', EncodeValue(v));
  }

  lemma {:induction false} CellsDecode(row: Row, names: seq<string>, k: nat)
    requires k <= |names| && forall i :: 0 <= i < |names| ==> names[i] in row
    ensures DecodeCells(CellTexts(row, names)[k..], RowPart(row, names[..k])) == Ok(RowPart(row, names))
    decreases |names| - k
  {
    hide DecodeCell, CellText;
    var cells := CellTexts(row, names);
    if k == |names| {
      assert names[..k] == names && cells[k..] == [];
    } else {
      CellDecodes(names[k], row[names[k]]);
      assert names[..k + 1] == names[..k] + [names[k]];
      assert RowPart(row, names[..k + 1]) == RowPart(row, names[..k])[names[k] := row[names[k]]];
      assert cells[k..][1..] == cells[k + 1..];
      CellsDecode(row, names, k + 1);
    }
  }

  lemma RowPartEnds(row: Row, names: seq<string>)
    requires forall n :: n in names <==> n in row
    ensures RowPart(row, names[..0]) == map[] && RowPart(row, names) == row
  {}

  lemma RowCellsDecode(row: Row)
    ensures DecodeCells(CellTexts(row, AscendingNames(row.Keys)), map[]) == Ok(row)
  {
    hide AscendingNames, CellTexts, DecodeCells, RowPart;
    var names := AscendingNames(row.Keys);
    CellsDecode(row, names, 0);
    assert CellTexts(row, names)[0..] == CellTexts(row, names);
    RowPartEnds(row, names);
  }

  lemma RowFieldsGood(id: nat, row: Row)
    ensures GoodFields(RowFields(id, row))
  {
    hide CellText, AscendingNames, Decimal, CellTexts;
    var names := AscendingNames(row.Keys);
    var cells := CellTexts(row, names);
    assert LineSafe(Decimal(id)) by { DecimalShape(id); }
    var fields := RowFields(id, row);
    forall i | 0 <= i < |fields| ensures LineSafe(fields[i]) {
      if i >= 2 {
        assert fields[i] == cells[i - 2] == CellText(names[i - 2], row[names[i - 2]]);
        CellDecodes(names[i - 2], row[names[i - 2]]);
      }
    }
  }

  lemma RowFieldParts(id: nat, row: Row)
    ensures |RowFields(id, row)| >= 2 && RowFields(id, row)[0] == "ROW" && RowFields(id, row)[1] == Decimal(id)
    ensures RowFields(id, row)[2..] == CellTexts(row, AscendingNames(row.Keys))
  {
    hide CellTexts, AscendingNames, Decimal;
  }

  lemma RowDecodes(t: Table, id: nat, row: Row)
    ensures DecodeRow(t, RowFields(id, row)) ==
            Ok(t.(rows := t.rows[id := row], nextRowId := if t.nextRowId < id + 1 then id + 1 else t.nextRowId))
  {
    hide CellTexts, AscendingNames, DecodeCells, Decimal, ParseRowId, RowFields;
    DecimalParses(id);
    RowCellsDecode(row);
    RowFieldParts(id, row);
  }

  function RowsRead(t: Table, k: nat): map<nat, Row>
    requires k <= |t.rows|
  {
    var ids := Ascending(t.rows.Keys);
    map id | id in ids[..k] :: t.rows[id]
  }

  // ---------------------------------------------------------------- one table

  /** The states of one table block: after its head, its columns, its definitions and its rows. */
  function WithColumns(t: Table): Table { EmptyTable(t.name).(columns := t.columns, primaryKey := t.primaryKey) }

  function WithIndexes(t: Table, k: nat): Table
    requires k <= |t.indexes|
  {
    WithColumns(t).(indexes := Definitions(t.indexes, AscendingNames(t.indexes.Keys)[..k]))
  }

  function WithFulltext(t: Table, k: nat): Table
    requires k <= |t.fulltext|
  {
    WithIndexes(t, |t.indexes|).(fulltext := Definitions(t.fulltext, AscendingNames(t.fulltext.Keys)[..k]))
  }

  function WithRows(t: Table, k: nat): Table
    requires k <= |t.rows|
  {
    var ids := Ascending(t.rows.Keys);
    WithFulltext(t, |t.fulltext|).(rows := RowsRead(t, k), nextRowId := if k == 0 then 1 else ids[k - 1] + 1)
  }

  lemma ColumnsChain(c: Catalog, t: Table, env: Env)
    requires Shape(t)
    ensures DecodeLines(Decoding(c, Some(EmptyTable(t.name))), ColumnLines(t.columns), env) ==
            Ok(Decoding(c, Some(WithColumns(t))))
  {
    hide Line, ColumnFields, DecodeLine, DecodeColumn, DecodeLines;
    var lines := ColumnLines(t.columns);
    var states := seq(|lines| + 1, k requires 0 <= k <= |lines| => Decoding(c, Some(ColumnsRead(t, k))));
    forall k | 0 <= k < |lines| ensures DecodeLine(states[k], lines[k], env) == Ok(states[k + 1]) {
      ColumnStep(c, t, k, env);
    }
    DecodeChain(states, lines, env);
    assert t.columns[..0] == [] && t.columns[..|t.columns|] == t.columns;
  }

  lemma ColumnStep(c: Catalog, t: Table, k: nat, env: Env)
    requires Shape(t) && k < |t.columns|
    ensures DecodeLine(Decoding(c, Some(ColumnsRead(t, k))), Line(ColumnFields(t.columns[k])), env)
            == Ok(Decoding(c, Some(ColumnsRead(t, k + 1))))
  {
    hide Line, DecodeLine, DecodeColumn, ColumnsRead;
    ColumnFieldsGood(t.columns[k]);
    ColumnDecodes(t, k);
    LineDecodes(Decoding(c, Some(ColumnsRead(t, k))), ColumnFields(t.columns[k]), env);
    assert ColumnFields(t.columns[k])[0] == "COLUMN";
  }

  lemma IndexStep(c: Catalog, t: Table, name: string, column: string, env: Env)
    ensures DecodeLine(Decoding(c, Some(t)), Line(DefinitionFields("INDEX", name, column)), env)
            == Ok(Decoding(c, Some(t.(indexes := t.indexes[name := Index(column, map[])]))))
    ensures DecodeLine(Decoding(c, Some(t)), Line(DefinitionFields("FTS", name, column)), env)
            == Ok(Decoding(c, Some(t.(fulltext := t.fulltext[name := Index(column, map[])]))))
  {
    hide Line, DecodeLine, DecodeDefinition;
    DefinitionDecodes("INDEX", name, column);
    DefinitionDecodes("FTS", name, column);
    LineDecodes(Decoding(c, Some(t)), DefinitionFields("INDEX", name, column), env);
    LineDecodes(Decoding(c, Some(t)), DefinitionFields("FTS", name, column), env);
    assert DefinitionFields("INDEX", name, column)[0] == "INDEX";
    assert DefinitionFields("FTS", name, column)[0] == "FTS";
  }

  lemma IndexesStep(c: Catalog, t: Table, k: nat, env: Env)
    requires k < |t.indexes|
    ensures var n := AscendingNames(t.indexes.Keys)[k];
            n in t.indexes
            && DecodeLine(Decoding(c, Some(WithIndexes(t, k))),
                          Line(DefinitionFields("INDEX", n, t.indexes[n].column)), env)
               == Ok(Decoding(c, Some(WithIndexes(t, k + 1))))
  {
    hide Line, DefinitionFields, DecodeLine, AscendingNames, Definitions;
    var names := AscendingNames(t.indexes.Keys);
    IndexStep(c, WithIndexes(t, k), names[k], t.indexes[names[k]].column, env);
    DefinitionsSnoc(t.indexes, names, k);
  }

  lemma IndexesChain(c: Catalog, t: Table, env: Env)
    ensures DecodeLines(Decoding(c, Some(WithColumns(t))),
                        DefinitionLines("INDEX", t.indexes, AscendingNames(t.indexes.Keys)), env)
            == Ok(Decoding(c, Some(WithIndexes(t, |t.indexes|))))
  {
    hide Line, DefinitionFields, DecodeLine, DecodeLines, AscendingNames, WithIndexes;
    var names := AscendingNames(t.indexes.Keys);
    var lines := DefinitionLines("INDEX", t.indexes, names);
    var states := seq(|lines| + 1, k requires 0 <= k <= |lines| => Decoding(c, Some(WithIndexes(t, k))));
    forall k | 0 <= k < |lines| ensures DecodeLine(states[k], lines[k], env) == Ok(states[k + 1]) {
      IndexesStep(c, t, k, env);
    }
    DecodeChain(states, lines, env);
    NoIndexesYet(t);
  }

  lemma NoIndexesYet(t: Table)
    ensures WithIndexes(t, 0) == WithColumns(t)
  {
    hide AscendingNames;
    assert Definitions(t.indexes, AscendingNames(t.indexes.Keys)[..0]) == map[];
  }

  lemma FulltextStep(c: Catalog, t: Table, k: nat, env: Env)
    requires k < |t.fulltext|
    ensures var n := AscendingNames(t.fulltext.Keys)[k];
            n in t.fulltext
            && DecodeLine(Decoding(c, Some(WithFulltext(t, k))),
                          Line(DefinitionFields("FTS", n, t.fulltext[n].column)), env)
               == Ok(Decoding(c, Some(WithFulltext(t, k + 1))))
  {
    hide Line, DefinitionFields, DecodeLine, AscendingNames, Definitions, WithIndexes;
    var names := AscendingNames(t.fulltext.Keys);
    IndexStep(c, WithFulltext(t, k), names[k], t.fulltext[names[k]].column, env);
    DefinitionsSnoc(t.fulltext, names, k);
  }

  lemma FulltextChain(c: Catalog, t: Table, env: Env)
    ensures DecodeLines(Decoding(c, Some(WithIndexes(t, |t.indexes|))),
                        DefinitionLines("FTS", t.fulltext, AscendingNames(t.fulltext.Keys)), env)
            == Ok(Decoding(c, Some(WithFulltext(t, |t.fulltext|))))
  {
    hide Line, DefinitionFields, DecodeLine, DecodeLines, AscendingNames, WithIndexes, WithFulltext;
    var names := AscendingNames(t.fulltext.Keys);
    var lines := DefinitionLines("FTS", t.fulltext, names);
    var states := seq(|lines| + 1, k requires 0 <= k <= |lines| => Decoding(c, Some(WithFulltext(t, k))));
    forall k | 0 <= k < |lines| ensures DecodeLine(states[k], lines[k], env) == Ok(states[k + 1]) {
      FulltextStep(c, t, k, env);
    }
    DecodeChain(states, lines, env);
    NoFulltextYet(t);
  }

  lemma NoFulltextYet(t: Table)
    ensures WithFulltext(t, 0) == WithIndexes(t, |t.indexes|)
  {
    hide AscendingNames;
    assert Definitions(t.fulltext, AscendingNames(t.fulltext.Keys)[..0]) == map[];
  }

  lemma OneMoreRow(t: Table, k: nat)
    requires k < |t.rows|
    ensures var id := Ascending(t.rows.Keys)[k]; id in t.rows && RowsRead(t, k + 1) == RowsRead(t, k)[id := t.rows[id]]
  {
    hide Ascending;
    var ids := Ascending(t.rows.Keys);
    assert ids[..k + 1] == ids[..k] + [ids[k]];
  }

  lemma WithOneMoreRow(t: Table, k: nat)
    requires k < |t.rows|
    ensures var (id, u) := (Ascending(t.rows.Keys)[k], WithRows(t, k));
            && id in t.rows
            && WithRows(t, k + 1) ==
               u.(rows := u.rows[id := t.rows[id]], nextRowId := if u.nextRowId < id + 1 then id + 1 else u.nextRowId)
  {
    hide Ascending, WithFulltext, RowsRead;
    var ids := Ascending(t.rows.Keys);
    assert k > 0 ==> ids[k - 1] < ids[k];
    OneMoreRow(t, k);
  }

  lemma RowLineDecodes(c: Catalog, u: Table, id: nat, row: Row, env: Env)
    ensures DecodeLine(Decoding(c, Some(u)), Line(RowFields(id, row)), env) ==
            var next := if u.nextRowId < id + 1 then id + 1 else u.nextRowId;
            Ok(Decoding(c, Some(u.(rows := u.rows[id := row], nextRowId := next))))
  {
    hide Line, DecodeLine, DecodeRow, RowFields, DecodeParts;
    var st := Decoding(c, Some(u));
    var fields := RowFields(id, row);
    RowFieldsGood(id, row);
    LineDecodes(st, fields, env);
    RowDecodes(u, id, row);
    RowFieldParts(id, row);
    hide GoodFields;
    RowParts(c, u, fields, env);
  }

  lemma RowStep(c: Catalog, t: Table, k: nat, env: Env)
    requires k < |t.rows|
    ensures var ids := Ascending(t.rows.Keys);
            DecodeLine(Decoding(c, Some(WithRows(t, k))), Line(RowFields(ids[k], t.rows[ids[k]])), env)
            == Ok(Decoding(c, Some(WithRows(t, k + 1))))
  {
    hide Line, DecodeLine, RowFields, Ascending, WithRows;
    WithOneMoreRow(t, k);
    var id := Ascending(t.rows.Keys)[k];
    RowLineDecodes(c, WithRows(t, k), id, t.rows[id], env);
  }

  lemma RowParts(c: Catalog, t: Table, fields: seq<string>, env: Env)
    requires fields != [] && fields[0] == "ROW"
    ensures DecodeParts(Decoding(c, Some(t)), fields, env) == WithTable(Decoding(c, Some(t)), DecodeRow(t, fields))
  {
    hide DecodeRow;
  }

  lemma RowsChain(c: Catalog, t: Table, env: Env)
    ensures DecodeLines(Decoding(c, Some(WithFulltext(t, |t.fulltext|))), RowLines(t.rows, Ascending(t.rows.Keys)), env)
            == Ok(Decoding(c, Some(WithRows(t, |t.rows|))))
  {
    hide Line, RowFields, DecodeLine, DecodeLines, Ascending, WithFulltext, WithRows, RowLines, RowsRead;
    var ids := Ascending(t.rows.Keys);
    var lines := RowLines(t.rows, ids);
    NoRowsYet(t);
    var states := seq(|lines| + 1, k requires 0 <= k <= |lines| => Decoding(c, Some(WithRows(t, k))));
    forall k | 0 <= k < |lines| ensures DecodeLine(states[k], lines[k], env) == Ok(states[k + 1]) {
      RowStep(c, t, k, env);
    }
    DecodeChain(states, lines, env);
  }

  lemma NoRowsYet(t: Table)
    ensures WithRows(t, 0) == WithFulltext(t, |t.fulltext|)
  {
    hide Ascending, AscendingNames;
    assert RowsRead(t, 0) == map[];
  }

  /** Once all lines of a block are read, only the index contents are missing. */
  lemma AllRead(t: Table)
    ensures WithRows(t, |t.rows|) ==
            Table(t.name, t.columns, t.rows, LeastNext(t.rows), t.primaryKey, map[],
                  Stored(t.indexes), Stored(t.fulltext))
  {
    hide Ascending, AscendingNames;
    var ids := Ascending(t.rows.Keys);
    assert ids[..|t.rows|] == ids;
    assert RowsRead(t, |t.rows|) == t.rows;
    assert AscendingNames(t.indexes.Keys)[..|t.indexes|] == AscendingNames(t.indexes.Keys);
    assert AscendingNames(t.fulltext.Keys)[..|t.fulltext|] == AscendingNames(t.fulltext.Keys);
    assert |t.rows| == 0 ==> t.rows == map[];
  }

  lemma RebuildOfRead(t: Table, env: Env)
    requires Core(t)
    ensures Rebuild(WithRows(t, |t.rows|), Tok(env, env.tokenizer)) == Ok(Reread(t, env))
  {
    hide Ascending, AscendingNames, BuildEntries, BuildWords, WithRows, LeastNext, BuildPrimary, Shape, PrimaryOk,
         ColumnIndexable;
    AllRead(t);
    DefinitionsRefill(t, Tok(env, env.tokenizer));
  }

  /** Refilling the stored definitions gives the index contents of the table they came from. */
  lemma DefinitionsRefill(t: Table, tok: string -> seq<string>)
    requires Buildable(t)
    ensures var (ix, ft) := (Stored(t.indexes), Stored(t.fulltext));
            && (forall n :: n in ix ==> ColumnIndexable(t.rows, ix[n].column))
            && BuildIndexes(t.rows, ix) == BuildIndexes(t.rows, t.indexes)
            && BuildFulltext(t.rows, ft, tok) == BuildFulltext(t.rows, t.fulltext, tok)
  {
    hide AscendingNames, BuildIndexes, BuildFulltext, PrimaryOk, ColumnIndexable, Stored, SameDefinitions;
    DefinitionsSame(t.indexes);
    DefinitionsSame(t.fulltext);
    SameIndexesBuild(t.rows, Stored(t.indexes), t.indexes);
    SameFulltextBuild(t.rows, Stored(t.fulltext), t.fulltext, tok);
  }

  lemma DefinitionsSame(indexes: map<string, Index>)
    ensures SameDefinitions(Stored(indexes), indexes)
  {
    hide AscendingNames;
  }

  lemma EndStep(c: Catalog, t: Table, env: Env)
    requires Rebuild(t, Tok(env, env.tokenizer)).Ok?
    ensures var u := Rebuild(t, Tok(env, env.tokenizer)).value;
            DecodeLine(Decoding(c, Some(t)), "ENDTABLE", env) == Ok(Decoding(c[u.name := u], None))
  {
    hide Rebuild, DecodeLine;
    assert Line(["ENDTABLE"]) == "ENDTABLE";
    LineDecodes(Decoding(c, Some(t)), ["ENDTABLE"], env);
  }

  lemma HeadStep(c: Catalog, name: string, env: Env)
    ensures DecodeLine(Decoding(c, None), Line(["TABLE", EncodeString(name)]), env)
            == Ok(Decoding(c, Some(EmptyTable(name))))
  {
    hide Line, DecodeLine, EncodeString, DecodeString;
    EncodeStringSafe(name);
    StringRoundTrip(name);
    LineDecodes(Decoding(c, None), ["TABLE", EncodeString(name)], env);
  }

  lemma OneLine(st: Decoding, line: string, env: Env)
    ensures DecodeLines(st, [line], env) == DecodeLine(st, line, env)
  {
    hide DecodeLine;
    assert [line][1..] == [];
    var next := DecodeLine(st, line, env);
    if next.Ok? { assert DecodeLines(next.value, [], env) == next; }
  }

  lemma TableDecodes(c: Catalog, t: Table, env: Env)
    requires Core(t)
    ensures DecodeLines(Decoding(c, None), TableLines(t), env) == Ok(Decoding(c[t.name := Reread(t, env)], None))
  {
    hide Line, DecodeLine, DecodeLines, ColumnLines, DefinitionLines, RowLines, Ascending, AscendingNames,
         WithColumns, WithIndexes, WithFulltext, WithRows, Rebuild, Built, LeastNext, BuildIndexes, BuildFulltext,
         BuildPrimary;
    var head := [Line(["TABLE", EncodeString(t.name)])];
    var columns := ColumnLines(t.columns);
    var indexes := DefinitionLines("INDEX", t.indexes, AscendingNames(t.indexes.Keys));
    var fulltext := DefinitionLines("FTS", t.fulltext, AscendingNames(t.fulltext.Keys));
    var rows := RowLines(t.rows, Ascending(t.rows.Keys));
    var st := Decoding(c, None);
    HeadStep(c, t.name, env);
    OneLine(st, head[0], env);
    ColumnsChain(c, t, env);
    IndexesChain(c, t, env);
    FulltextChain(c, t, env);
    RowsChain(c, t, env);
    RebuildOfRead(t, env);
    EndStep(c, WithRows(t, |t.rows|), env);
    OneLine(Decoding(c, Some(WithRows(t, |t.rows|))), "ENDTABLE", env);
    DecodeAppend(st, head, columns, env);
    DecodeAppend(st, head + columns, indexes, env);
    DecodeAppend(st, head + columns + indexes, fulltext, env);
    DecodeAppend(st, head + columns + indexes + fulltext, rows, env);
    DecodeAppend(st, head + columns + indexes + fulltext + rows, ["ENDTABLE"], env);
    assert Reread(t, env).name == t.name by { RereadName(t, env); }
  }

  lemma RereadName(t: Table, env: Env)
    requires Core(t)
    ensures Reread(t, env).name == t.name
  {}

  // ---------------------------------------------------------------- the whole file

  ghost function ReadNames(c: Catalog, names: seq<string>, env: Env, start: Catalog): Catalog
    requires Storable(c) && forall i :: 0 <= i < |names| ==> names[i] in c
  {
    if names == [] then start else ReadNames(c, names[1..], env, start[names[0] := Reread(c[names[0]], env)])
  }

  lemma {:induction false} TablesDecode(c: Catalog, names: seq<string>, env: Env, start: Catalog)
    requires Storable(c) && forall i :: 0 <= i < |names| ==> names[i] in c
    ensures DecodeLines(Decoding(start, None), CatalogLines(c, names), env) ==
            Ok(Decoding(ReadNames(c, names, env, start), None))
    decreases names
  {
    hide TableLines, DecodeLine, Reread, Shape, Buildable, BuildIndexes, BuildPrimary;
    if names != [] {
      var t := c[names[0]];
      TableDecodes(start, t, env);
      DecodeAppend(Decoding(start, None), TableLines(t), CatalogLines(c, names[1..]), env);
      TablesDecode(c, names[1..], env, start[names[0] := Reread(t, env)]);
    }
  }

  lemma {:induction false} ReadNamesMeaning(c: Catalog, names: seq<string>, env: Env, start: Catalog)
    requires Storable(c) && forall i :: 0 <= i < |names| ==> names[i] in c
    ensures var r := ReadNames(c, names, env, start);
            && (forall n :: n in r <==> n in start || n in names)
            && (forall n :: n in r ==> r[n] == if n in names then Reread(c[n], env) else start[n])
    decreases names
  {
    hide Reread, Shape, Buildable, BuildIndexes, BuildPrimary;
    if names != [] {
      ReadNamesMeaning(c, names[1..], env, start[names[0] := Reread(c[names[0]], env)]);
      assert forall n :: n in names <==> n == names[0] || n in names[1..];
    }
  }

  lemma HeadPlain(name: string)
    ensures AllPlain([Line(["TABLE", EncodeString(name)])])
  {
    hide Line, EncodeString;
    EncodeStringSafe(name);
    FieldsPlain(["TABLE", EncodeString(name)]);
  }

  lemma ColumnLinesPlain(columns: seq<Column>)
    ensures AllPlain(ColumnLines(columns))
  {
    hide Line, ColumnFields, PlainLine;
    forall i | 0 <= i < |columns| ensures PlainLine(ColumnLines(columns)[i]) {
      ColumnFieldsGood(columns[i]);
      FieldsPlain(ColumnFields(columns[i]));
    }
  }

  lemma RowLinesPlain(rows: map<nat, Row>)
    ensures AllPlain(RowLines(rows, Ascending(rows.Keys)))
  {
    hide Line, RowFields, PlainLine, Ascending;
    var ids := Ascending(rows.Keys);
    forall i | 0 <= i < |ids| ensures PlainLine(RowLines(rows, ids)[i]) {
      RowFieldsGood(ids[i], rows[ids[i]]);
      FieldsPlain(RowFields(ids[i], rows[ids[i]]));
    }
  }

  lemma EndPlain()
    ensures AllPlain(["ENDTABLE"])
  {}

  lemma TableLinesPlain(t: Table)
    ensures AllPlain(TableLines(t))
  {
    hide Line, Ascending, AscendingNames, ColumnLines, DefinitionLines, RowLines, AllPlain, EncodeString;
    var head := [Line(["TABLE", EncodeString(t.name)])];
    var columns := ColumnLines(t.columns);
    var indexes := DefinitionLines("INDEX", t.indexes, AscendingNames(t.indexes.Keys));
    var fulltext := DefinitionLines("FTS", t.fulltext, AscendingNames(t.fulltext.Keys));
    var rows := RowLines(t.rows, Ascending(t.rows.Keys));
    HeadPlain(t.name);
    ColumnLinesPlain(t.columns);
    DefinitionLinesPlain("INDEX", t.indexes);
    DefinitionLinesPlain("FTS", t.fulltext);
    RowLinesPlain(t.rows);
    EndPlain();
    PlainConcat(head, columns);
    PlainConcat(head + columns, indexes);
    PlainConcat(head + columns + indexes, fulltext);
    PlainConcat(head + columns + indexes + fulltext, rows);
    PlainConcat(head + columns + indexes + fulltext + rows, ["ENDTABLE"]);
  }

  ghost predicate AllPlain(ls: seq<string>) { forall i :: 0 <= i < |ls| ==> PlainLine(ls[i]) }

  lemma PlainConcat(a: seq<string>, b: seq<string>)
    requires AllPlain(a) && AllPlain(b)
    ensures AllPlain(a + b)
  {}

  lemma FieldsPlain(fields: seq<string>)
    requires GoodFields(fields)
    ensures PlainLine(Line(fields))
  {
    JoinPlain(fields);
  }

  lemma DefinitionLinesPlain(tag: string, indexes: map<string, Index>)
    requires tag != [] && LineSafe(tag)
    ensures AllPlain(DefinitionLines(tag, indexes, AscendingNames(indexes.Keys)))
  {
    hide Line, AscendingNames, DefinitionFields;
    var names := AscendingNames(indexes.Keys);
    var lines := DefinitionLines(tag, indexes, names);
    forall i | 0 <= i < |lines| ensures PlainLine(lines[i]) {
      DefinitionDecodes(tag, names[i], indexes[names[i]].column);
      FieldsPlain(DefinitionFields(tag, names[i], indexes[names[i]].column));
    }
  }

  lemma {:induction false} CatalogLinesPlain(c: Catalog, names: seq<string>)
    requires forall i :: 0 <= i < |names| ==> names[i] in c
    ensures AllPlain(CatalogLines(c, names))
  {
    hide TableLines, PlainLine;
    if names != [] {
      TableLinesPlain(c[names[0]]);
      CatalogLinesPlain(c, names[1..]);
      PlainConcat(TableLines(c[names[0]]), CatalogLines(c, names[1..]));
    }
  }

  /** The catalog round trip: decoding succeeds and yields every table, column, row and definition, the
      indexes refilled, and the least next row id. */
  lemma DecodeOfEncode(c: Catalog, env: Env)
    requires Storable(c)
    ensures DecodeCatalog(EncodeCatalog(c), env) == Ok(Reopened(c, env))
  {
    hide CatalogLines, AscendingNames, Core, Reread, DecodeLines, PlainLine, Reopened, Lines, Unlines, ReadNames;
    var names := AscendingNames(c.Keys);
    var lines := ["FSQ1"] + CatalogLines(c, names);
    CatalogLinesPlain(c, names);
    assert PlainLine("FSQ1") by { HeaderPlain(); }
    LinesOfUnlines(lines);
    assert lines[1..] == CatalogLines(c, names);
    TablesDecode(c, names, env, map[]);
    ReadsAll(c, env);
  }

  lemma ReadsAll(c: Catalog, env: Env)
    requires Storable(c)
    ensures ReadNames(c, AscendingNames(c.Keys), env, map[]) == Reopened(c, env)
  {
    hide AscendingNames, Reread, Shape, Buildable, BuildIndexes, BuildPrimary, ReadNames;
    ReadNamesMeaning(c, AscendingNames(c.Keys), env, map[]);
  }

  lemma HeaderPlain()
    ensures PlainLine("FSQ1")
  {}

  // ---------------------------------------------------------------- what the text does not show

  /** Equal up to the next row id and the index contents. */
  predicate SameText(t: Table, u: Table) { SameSchema(t, u) && t.rows == u.rows }

  ghost predicate SameTexts(c: Catalog, d: Catalog) {
    c.Keys == d.Keys && forall n :: n in c ==> SameText(c[n], d[n])
  }

  lemma SameDefinitionLines(tag: string, a: map<string, Index>, b: map<string, Index>)
    requires SameDefinitions(a, b)
    ensures DefinitionLines(tag, a, AscendingNames(a.Keys)) == DefinitionLines(tag, b, AscendingNames(b.Keys))
  {
    hide Line, DefinitionFields, AscendingNames;
  }

  lemma SameTextLines(t: Table, u: Table)
    requires SameText(t, u)
    ensures TableLines(t) == TableLines(u)
  {
    hide Line, DefinitionLines, EncodeString, SameDefinitions, AscendingNames, ColumnLines, RowLines, Ascending;
    SameDefinitionLines("INDEX", t.indexes, u.indexes);
    SameDefinitionLines("FTS", t.fulltext, u.fulltext);
  }

  lemma {:induction false} SameCatalogLines(c: Catalog, d: Catalog, names: seq<string>)
    requires SameTexts(c, d) && forall i :: 0 <= i < |names| ==> names[i] in c
    ensures CatalogLines(c, names) == CatalogLines(d, names)
  {
    hide TableLines, SameText;
    if names != [] {
      SameTextLines(c[names[0]], d[names[0]]);
      SameCatalogLines(c, d, names[1..]);
    }
  }

  /** The file text depends on neither next row ids nor index contents. */
  lemma EncodeSameText(c: Catalog, d: Catalog)
    requires SameTexts(c, d)
    ensures EncodeCatalog(c) == EncodeCatalog(d)
  {
    hide CatalogLines, Unlines, AscendingNames, SameText;
    SameCatalogLines(c, d, AscendingNames(c.Keys));
  }

  lemma RereadSameText(t: Table, env: Env)
    requires Core(t)
    ensures SameText(t, Reread(t, env))
  {
    hide BuildEntries, BuildWords, LeastNext, BuildPrimary;
  }

  /** Writing, reading and writing again gives the same text. */
  lemma TextFixedPoint(c: Catalog, env: Env)
    requires Storable(c)
    ensures DecodeCatalog(EncodeCatalog(c), env).Ok?
    ensures EncodeCatalog(DecodeCatalog(EncodeCatalog(c), env).value) == EncodeCatalog(c)
  {
    hide DecodeCatalog, EncodeCatalog, Reread, SameText, Core;
    DecodeOfEncode(c, env);
    assert SameTexts(c, Reopened(c, env)) by { ReopenedSameTexts(c, env); }
    EncodeSameText(c, Reopened(c, env));
  }

  lemma ReopenedSameTexts(c: Catalog, env: Env)
    requires Storable(c)
    ensures SameTexts(c, Reopened(c, env))
  {
    hide Reread, SameText, Shape, Buildable, BuildIndexes, BuildPrimary;
    forall n | n in c ensures SameText(c[n], Reopened(c, env)[n]) { RereadSameText(c[n], env); }
  }

  /** For tables indexed with the configured tokeniser, nothing but the next row id changes. */
  lemma RereadWellFormed(t: Table, env: Env)
    requires WellFormed(t, Tok(env, env.tokenizer))
    ensures Reread(t, env) == t.(nextRowId := LeastNext(t.rows))
  {}

  /** A written file is never empty: it starts with its header. */
  lemma EncodedNotEmpty(c: Catalog)
    ensures EncodeCatalog(c) != ""
  {
    hide CatalogLines, AscendingNames;
  }
}
