/** The catalog and its text form in the database file (`storage/catalog.rs`). */
module Catalogs {
  import opened Basics
  import opened Text
  import opened Values
  import opened Codec
  import opened Ast
  import opened Tables

  type Catalog = map<string, Table>

  // ---------------------------------------------------------------- writing

  function TypeName(ty: ColumnType): string {
    match ty
    case IntegerType => "integer" case FloatType => "float" case BooleanType => "boolean"
    case TextType => "text" case VectorType => "vector" case PointType => "point"
  }

  function ColumnFields(c: Column): seq<string> {
    ["COLUMN", EncodeString(c.name), TypeName(c.ty), if c.primaryKey then "1" else "0"]
  }

  function DefinitionFields(tag: string, name: string, column: string): seq<string> {
    [tag, EncodeString(name), EncodeString(column)]
  }

  function CellText(column: string, v: Value): string {
    EncodeString(column) + ['='] + EncodeValue(v)
  }

  function CellTexts(row: Row, names: seq<string>): (r: seq<string>)
    requires forall i :: 0 <= i < |names| ==> names[i] in row
    ensures |r| == |names|
    ensures forall i :: 0 <= i < |names| ==> r[i] == CellText(names[i], row[names[i]])
  {
    seq(|names|, i requires 0 <= i < |names| => CellText(names[i], row[names[i]]))
  }

  function RowFields(id: nat, row: Row): seq<string> {
    ["ROW", Decimal(id)] + CellTexts(row, AscendingNames(row.Keys))
  }

  function Line(fields: seq<string>): string { Join(fields, '\t') }

  function ColumnLines(columns: seq<Column>): (r: seq<string>)
    ensures |r| == |columns| && forall i :: 0 <= i < |r| ==> r[i] == Line(ColumnFields(columns[i]))
  {
    seq(|columns|, i requires 0 <= i < |columns| => Line(ColumnFields(columns[i])))
  }

  function DefinitionLines(tag: string, indexes: map<string, Index>, names: seq<string>): (r: seq<string>)
    requires forall i :: 0 <= i < |names| ==> names[i] in indexes
    ensures |r| == |names|
    ensures forall i :: 0 <= i < |r| ==> r[i] == Line(DefinitionFields(tag, names[i], indexes[names[i]].column))
  {
    seq(|names|, i requires 0 <= i < |names| => Line(DefinitionFields(tag, names[i], indexes[names[i]].column)))
  }

  function RowLines(rows: map<nat, Row>, ids: seq<nat>): (r: seq<string>)
    requires forall i :: 0 <= i < |ids| ==> ids[i] in rows
    ensures |r| == |ids| && forall i :: 0 <= i < |r| ==> r[i] == Line(RowFields(ids[i], rows[ids[i]]))
  {
    seq(|ids|, i requires 0 <= i < |ids| => Line(RowFields(ids[i], rows[ids[i]])))
  }

  function TableLines(t: Table): seq<string> {
    [Line(["TABLE", EncodeString(t.name)])]
    + ColumnLines(t.columns)
    + DefinitionLines("INDEX", t.indexes, AscendingNames(t.indexes.Keys))
    + DefinitionLines("FTS", t.fulltext, AscendingNames(t.fulltext.Keys))
    + RowLines(t.rows, Ascending(t.rows.Keys))
    + ["ENDTABLE"]
  }

  function CatalogLines(c: Catalog, names: seq<string>): seq<string>
    requires forall i :: 0 <= i < |names| ==> names[i] in c
  {
    if names == [] then [] else TableLines(c[names[0]]) + CatalogLines(c, names[1..])
  }

  /** The text `Catalog::encode` writes: row ids, but not the next one, and index definitions, but not
      their contents. */
  function EncodeCatalog(c: Catalog): string {
    Unlines(["FSQ1"] + CatalogLines(c, AscendingNames(c.Keys)))
  }

  // ---------------------------------------------------------------- reading

  /** The catalog read so far and the table block that is still open. */
  datatype Decoding = Decoding(catalog: Catalog, current: Option<Table>)

  function ParseType(s: string): Result<ColumnType, Error> {
    var name := LowerAscii(Trim(s));
    if name == "int" || name == "integer" then Ok(IntegerType)
    else if name == "float" || name == "real" || name == "double" then Ok(FloatType)
    else if name == "bool" || name == "boolean" then Ok(BooleanType)
    else if name == "text" || name == "string" then Ok(TextType)
    else if name == "vector" then Ok(VectorType)
    else if name == "point" || name == "geo" || name == "geography" || name == "coordinate" then Ok(PointType)
    else Err(Parse)
  }

  function EmptyTable(name: string): Table {
    Table(name, [], map[], 1, None, map[], map[], map[])
  }

  function DecodeHead(st: Decoding, parts: seq<string>): Result<Decoding, Error> {
    if st.current.Some? || |parts| < 2 then Err(Execution) else
      match DecodeString(parts[1])
      case Err(e) => Err(e)
      case Ok(name) => Ok(st.(current := Some(EmptyTable(name))))
  }

  function DecodeColumn(t: Table, parts: seq<string>): Result<Table, Error> {
    if |parts| < 4 then Err(Execution) else
      match DecodeString(parts[1])
      case Err(e) => Err(e)
      case Ok(name) =>
        var pk := parts[3] == "1";
        if name in Names(t.columns) || (pk && t.primaryKey.Some?) then Err(Execution) else
          match ParseType(parts[2])
          case Err(e) => Err(e)
          case Ok(ty) =>
            Ok(t.(columns := t.columns + [Column(name, ty, pk)], primaryKey := if pk then Some(name) else t.primaryKey))
  }

  function DecodeDefinition(parts: seq<string>): Result<(string, string), Error> {
    if |parts| < 3 then Err(Execution) else
      match (DecodeString(parts[1]), DecodeString(parts[2]))
      case (Ok(name), Ok(column)) => Ok((name, column))
      case _ => Err(Execution)
  }

  function DecodeCell(cell: string): Result<(string, Value), Error> {
    match SplitOnce(cell, '=')
    case None => Err(Execution)
    case Some((column, value)) =>
      match (DecodeString(column), DecodeValue(value))
      case (Ok(c), Ok(v)) => Ok((c, v))
      case _ => Err(Execution)
  }

  function DecodeCells(cells: seq<string>, row: Row): Result<Row, Error>
    decreases cells
  {
    if cells == [] then Ok(row) else
      match DecodeCell(cells[0])
      case Err(e) => Err(e)
      case Ok((c, v)) => DecodeCells(cells[1..], row[c := v])
  }

  function DecodeRow(t: Table, parts: seq<string>): Result<Table, Error> {
    if |parts| < 2 then Err(Execution) else
      match ParseRowId(parts[1])
      case None => Err(Execution)
      case Some(id) =>
        match DecodeCells(parts[2..], map[])
        case Err(e) => Err(e)
        case Ok(row) =>
          Ok(t.(rows := t.rows[id := row], nextRowId := if t.nextRowId < id + 1 then id + 1 else t.nextRowId))
  }

  function WithTable(st: Decoding, r: Result<Table, Error>): Result<Decoding, Error> {
    match r
    case Err(e) => Err(e)
    case Ok(t) => Ok(st.(current := Some(t)))
  }

  function DecodeParts(st: Decoding, parts: seq<string>, env: Env): Result<Decoding, Error>
    requires parts != []
  {
    if parts[0] == "TABLE" then DecodeHead(st, parts)
    else if parts[0] == "COLUMN" then
      if st.current.None? then Err(Execution) else WithTable(st, DecodeColumn(st.current.value, parts))
    else if parts[0] == "INDEX" then
      if st.current.None? then Err(Execution) else
        match DecodeDefinition(parts)
        case Err(e) => Err(e)
        case Ok((name, column)) =>
          var t := st.current.value;
          Ok(st.(current := Some(t.(indexes := t.indexes[name := Index(column, map[])]))))
    else if parts[0] == "FTS" then
      if st.current.None? then Err(Execution) else
        match DecodeDefinition(parts)
        case Err(e) => Err(e)
        case Ok((name, column)) =>
          var t := st.current.value;
          Ok(st.(current := Some(t.(fulltext := t.fulltext[name := Index(column, map[])]))))
    else if parts[0] == "ROW" then
      if st.current.None? then Err(Execution) else WithTable(st, DecodeRow(st.current.value, parts))
    else if parts[0] == "ENDTABLE" then
      if st.current.None? then Err(Execution) else
        match Rebuild(st.current.value, Tok(env, env.tokenizer))
        case Err(e) => Err(e)
        case Ok(t) => Ok(Decoding(st.catalog[t.name := t], None))
    else Err(Execution)
  }

  function DecodeLine(st: Decoding, line: string, env: Env): Result<Decoding, Error> {
    if line == [] then Ok(st) else DecodeParts(st, Split(line, '\t'), env)
  }

  function DecodeLines(st: Decoding, lines: seq<string>, env: Env): Result<Decoding, Error>
    decreases lines
  {
    if lines == [] then Ok(st) else
      match DecodeLine(st, lines[0], env)
      case Err(e) => Err(e)
      case Ok(next) => DecodeLines(next, lines[1..], env)
  }

  function DecodeCatalog(input: string, env: Env): Result<Catalog, Error> {
    var lines := Lines(input);
    if lines == [] then Ok(map[])
    else if lines[0] != "FSQ1" then Err(Execution)
    else
      match DecodeLines(Decoding(map[], None), lines[1..], env)
      case Err(e) => Err(e)
      case Ok(st) => if st.current.Some? then Err(Execution) else Ok(st.catalog)
  }

  /** `decode_with_options` as the loop it is: one line at a time, stopping at the first error. */
  method DecodeCatalogLoop(input: string, env: Env) returns (r: Result<Catalog, Error>)
    ensures r == DecodeCatalog(input, env)
  {
    var lines := Lines(input);
    if lines == [] { return Ok(map[]); }
    if lines[0] != "FSQ1" { return Err(Execution); }
    var st := Decoding(map[], None);
    var i := 1;
    while i < |lines|
      invariant 1 <= i <= |lines|
      invariant DecodeLines(Decoding(map[], None), lines[1..], env) == DecodeLines(st, lines[i..], env)
    {
      assert lines[i..][1..] == lines[i + 1..];
      var next := DecodeLine(st, lines[i], env);
      if next.Err? { return Err(next.error); }
      st := next.value;
      i := i + 1;
    }
    assert lines[i..] == [];
    r := if st.current.Some? then Err(Execution) else Ok(st.catalog);
  }

  // ---------------------------------------------------------------- the writing loops

  function Tabbed(cells: seq<string>): string {
    if cells == [] then [] else ['\t'] + cells[0] + Tabbed(cells[1..])
  }

  lemma {:induction false} JoinTabbed(parts: seq<string>, cells: seq<string>)
    requires parts != []
    ensures Join(parts + cells, '\t') == Join(parts, '\t') + Tabbed(cells)
    decreases |parts| + |cells|
  {
    if |parts| > 1 {
      assert (parts + cells)[1..] == parts[1..] + cells;
      JoinTabbed(parts[1..], cells);
    } else if cells == [] {
      assert parts + cells == parts;
    } else {
      assert (parts + cells)[1..] == cells == [cells[0]] + cells[1..];
      JoinTabbed([cells[0]], cells[1..]);
    }
  }

  lemma RowLineText(id: nat, row: Row)
    ensures Line(RowFields(id, row)) ==
            ("ROW" + ['\t'] + Decimal(id)) + Tabbed(CellTexts(row, AscendingNames(row.Keys)))
  {
    hide AscendingNames, CellTexts, Decimal;
    var head := ["ROW", Decimal(id)];
    JoinTabbed(head, CellTexts(row, AscendingNames(row.Keys)));
    assert head[1..] == [Decimal(id)];
  }

  /** The cells of one row, pushed one after the other. */
  lemma TabbedFrom(cells: seq<string>, i: nat)
    requires i < |cells|
    ensures Tabbed(cells[i..]) == ['\t'] + cells[i] + Tabbed(cells[i + 1..])
  {
    assert cells[i..][1..] == cells[i + 1..];
  }

  lemma NoCells(start: string, cells: seq<string>)
    requires cells == []
    ensures start + Tabbed(cells) == start
  {}

  method EncodeRowLoop(id: nat, row: Row) returns (out: string)
    ensures out == Line(RowFields(id, row))
  {
    hide Line, RowFields, Decimal, AscendingNames, CellText, CellTexts, Tabbed;
    var names := AscendingNames(row.Keys);
    ghost var cells := CellTexts(row, names);
    RowLineText(id, row);
    out := "ROW" + ['\t'] + Decimal(id);
    var i := 0;
    assert cells[0..] == cells;
    while i < |names|
      invariant 0 <= i <= |names|
      invariant out + Tabbed(cells[i..]) == Line(RowFields(id, row))
    {
      TabbedFrom(cells, i);
      var cell := CellText(names[i], row[names[i]]);
      assert out + (['\t'] + cell + Tabbed(cells[i + 1..])) == out + (['\t'] + cell) + Tabbed(cells[i + 1..]);
      out := out + (['\t'] + cell);
      i := i + 1;
    }
    NoCells(out, cells[i..]);
  }

  method PushLines(start: string, lines: seq<string>) returns (out: string)
    ensures out == start + Unlines(lines)
  {
    out := start;
    var i := 0;
    assert lines[0..] == lines;
    while i < |lines|
      invariant 0 <= i <= |lines|
      invariant out + Unlines(lines[i..]) == start + Unlines(lines)
    {
      assert lines[i..][1..] == lines[i + 1..];
      out := out + lines[i] + ['\n'];
      i := i + 1;
    }
    assert lines[i..] == [];
  }

  lemma UnlinesFrom(lines: seq<string>, i: nat)
    requires i < |lines|
    ensures Unlines(lines[i..]) == lines[i] + ['\n'] + Unlines(lines[i + 1..])
  {
    assert lines[i..][1..] == lines[i + 1..];
  }

  lemma NoLines(start: string, lines: seq<string>)
    requires lines == []
    ensures start + Unlines(lines) == start
  {}

  method PushRows(start: string, rows: map<nat, Row>) returns (out: string)
    ensures out == start + Unlines(RowLines(rows, Ascending(rows.Keys)))
  {
    hide Line, RowFields, Ascending, RowLines, Unlines;
    out := start;
    var ids := Ascending(rows.Keys);
    ghost var lines := RowLines(rows, ids);
    var i := 0;
    assert lines[0..] == lines;
    while i < |ids|
      invariant 0 <= i <= |ids|
      invariant out + Unlines(lines[i..]) == start + Unlines(lines)
    {
      UnlinesFrom(lines, i);
      var line := EncodeRowLoop(ids[i], rows[ids[i]]);
      assert out + (line + ['\n'] + Unlines(lines[i + 1..])) == out + line + ['\n'] + Unlines(lines[i + 1..]);
      out := out + line + ['\n'];
      i := i + 1;
    }
    NoLines(out, lines[i..]);
  }

  lemma UnlinesSix(start: string, a: seq<string>, b: seq<string>, c: seq<string>, d: seq<string>, e: seq<string>,
                   f: seq<string>)
    ensures start + Unlines(a) + Unlines(b) + Unlines(c) + Unlines(d) + Unlines(e) + Unlines(f) ==
            start + Unlines(a + b + c + d + e + f)
  {
    hide Unlines;
    UnlinesAppend(a, b);
    UnlinesAppend(a + b, c);
    UnlinesAppend(a + b + c, d);
    UnlinesAppend(a + b + c + d, e);
    UnlinesAppend(a + b + c + d + e, f);
  }

  method EncodeTableLoop(before: string, t: Table) returns (out: string)
    ensures out == before + Unlines(TableLines(t))
  {
    hide Line, ColumnLines, DefinitionLines, RowLines, Unlines, Ascending, AscendingNames;
    var head := [Line(["TABLE", EncodeString(t.name)])];
    var columns := ColumnLines(t.columns);
    var indexes := DefinitionLines("INDEX", t.indexes, AscendingNames(t.indexes.Keys));
    var fulltext := DefinitionLines("FTS", t.fulltext, AscendingNames(t.fulltext.Keys));
    ghost var rows := RowLines(t.rows, Ascending(t.rows.Keys));
    out := PushLines(before, head);
    out := PushLines(out, columns);
    out := PushLines(out, indexes);
    out := PushLines(out, fulltext);
    out := PushRows(out, t.rows);
    out := PushLines(out, ["ENDTABLE"]);
    UnlinesSix(before, head, columns, indexes, fulltext, rows, ["ENDTABLE"]);
  }

  /** `Catalog::encode`: every table in name order, pushed onto one string. */
  method EncodeCatalogLoop(c: Catalog) returns (out: string)
    ensures out == EncodeCatalog(c)
  {
    hide TableLines, Unlines, AscendingNames, CatalogLines;
    var names := AscendingNames(c.Keys);
    UnlinesAppend(["FSQ1"], CatalogLines(c, names));
    out := PushLines("", ["FSQ1"]);
    var i := 0;
    assert names[0..] == names;
    while i < |names|
      invariant 0 <= i <= |names|
      invariant out + Unlines(CatalogLines(c, names[i..])) == EncodeCatalog(c)
    {
      assert names[i..][1..] == names[i + 1..];
      TakeTable(out, c, names[i..]);
      out := EncodeTableLoop(out, c[names[i]]);
      i := i + 1;
    }
    assert names[i..] == [];
    NoTables(c);
  }

  lemma NoTables(c: Catalog)
    ensures Unlines(CatalogLines(c, [])) == []
  {}

  lemma TakeTable(start: string, c: Catalog, names: seq<string>)
    requires names != [] && forall i :: 0 <= i < |names| ==> names[i] in c
    ensures start + Unlines(CatalogLines(c, names)) ==
            (start + Unlines(TableLines(c[names[0]]))) + Unlines(CatalogLines(c, names[1..]))
  {
    hide TableLines, Unlines;
    UnlinesAppend(TableLines(c[names[0]]), CatalogLines(c, names[1..]));
  }
}
