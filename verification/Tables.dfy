/** A table with its primary, secondary and full-text indexes (`storage/table.rs`), as a value.
    The functions here say what each operation computes; `TableObject` carries the operations out
    in place and is proved against them. */
module Tables {
  import opened Basics
  import opened Values
  import opened Codec
  import opened Ast

  datatype Index = Index(column: string, entries: map<string, set<nat>>)

  datatype Table = Table(
    name: string,
    columns: seq<Column>,
    rows: map<nat, Row>,
    nextRowId: nat,
    primaryKey: Option<string>,
    primary: map<string, nat>,
    indexes: map<string, Index>,
    fulltext: map<string, Index>)

  // ---------------------------------------------------------------- index contents

  function KeyAt(row: Row, column: string): string
    requires column in row && Finite(row[column])
  {
    IndexKeyNamesValue(row[column]);
    IndexKey(row[column]).value
  }

  /** Every row has a non-null, indexable primary key and no two rows share it. */
  predicate PrimaryOk(rows: map<nat, Row>, pk: string) {
    && (forall id :: id in rows ==> pk in rows[id] && !rows[id][pk].Null? && Finite(rows[id][pk]))
    && (forall i, j :: i in rows && j in rows && KeyAt(rows[i], pk) == KeyAt(rows[j], pk) ==> i == j)
  }

  function BuildPrimary(rows: map<nat, Row>, pk: string): map<string, nat>
    requires PrimaryOk(rows, pk)
  {
    map id | id in rows :: KeyAt(rows[id], pk) := id
  }

  predicate ColumnIndexable(rows: map<nat, Row>, column: string) {
    forall id :: id in rows && column in rows[id] ==> Finite(rows[id][column])
  }

  function KeysOn(rows: map<nat, Row>, column: string): set<string>
    requires ColumnIndexable(rows, column)
  {
    set id | id in rows && column in rows[id] :: KeyAt(rows[id], column)
  }

  function BuildEntries(rows: map<nat, Row>, column: string): map<string, set<nat>>
    requires ColumnIndexable(rows, column)
  {
    map k | k in KeysOn(rows, column) ::
      set id | id in rows && column in rows[id] && KeyAt(rows[id], column) == k
  }

  /** The tokens a row contributes to a full-text index on a column. */
  function Words(row: Row, column: string, tok: string -> seq<string>): seq<string> {
    if column in row && row[column].Text? then tok(row[column].s) else []
  }

  function WordsOn(rows: map<nat, Row>, column: string, tok: string -> seq<string>): set<string> {
    set id, w | id in rows && w in Words(rows[id], column, tok) :: w
  }

  function BuildWords(rows: map<nat, Row>, column: string, tok: string -> seq<string>): map<string, set<nat>> {
    map w | w in WordsOn(rows, column, tok) ::
      set id | id in rows && w in Words(rows[id], column, tok)
  }

  function BuildIndexes(rows: map<nat, Row>, indexes: map<string, Index>): map<string, Index>
    requires forall n :: n in indexes ==> ColumnIndexable(rows, indexes[n].column)
  {
    map n | n in indexes :: Index(indexes[n].column, BuildEntries(rows, indexes[n].column))
  }

  function BuildFulltext(rows: map<nat, Row>, indexes: map<string, Index>, tok: string -> seq<string>):
    map<string, Index>
  {
    map n | n in indexes :: Index(indexes[n].column, BuildWords(rows, indexes[n].column, tok))
  }

  /** The same indexes on the same columns, whatever they hold. */
  predicate SameDefinitions(a: map<string, Index>, b: map<string, Index>) {
    a.Keys == b.Keys && forall n :: n in a ==> a[n].column == b[n].column
  }

  /** The same name, columns and indexes: all that a table's definition says. */
  predicate SameSchema(t: Table, u: Table) {
    && t.name == u.name && t.columns == u.columns
    && SameDefinitions(t.indexes, u.indexes) && SameDefinitions(t.fulltext, u.fulltext)
  }

  predicate Buildable(t: Table) {
    && (t.primaryKey.Some? ==> PrimaryOk(t.rows, t.primaryKey.value))
    && (forall n :: n in t.indexes ==> ColumnIndexable(t.rows, t.indexes[n].column))
  }

  function Built(t: Table, tok: string -> seq<string>): Table
    requires Buildable(t)
  {
    t.(primary := if t.primaryKey.Some? then BuildPrimary(t.rows, t.primaryKey.value) else map[],
       indexes := BuildIndexes(t.rows, t.indexes),
       fulltext := BuildFulltext(t.rows, t.fulltext, tok))
  }

  /** `rebuild_indexes_with_options`: clear every index map and refill it from the rows. */
  function Rebuild(t: Table, tok: string -> seq<string>): Result<Table, Error> {
    if Buildable(t) then Ok(Built(t, tok)) else Err(Execution)
  }

  function Tok(env: Env, k: Tokenizer): string -> seq<string> { s => env.tokenize(k, s) }

  // ---------------------------------------------------------------- well-formed tables

  predicate RowFits(row: Row, columns: seq<Column>) {
    && row.Keys == Names(columns)
    && forall i :: 0 <= i < |columns| ==> columns[i].name in row && Fits(columns[i].ty, row[columns[i].name])
  }

  predicate Shape(t: Table) {
    && DistinctNames(t.columns)
    && OnePrimary(t.columns)
    && t.primaryKey == PrimaryColumn(t.columns)
    && t.nextRowId >= 1
    && forall id :: id in t.rows ==> id < t.nextRowId && RowFits(t.rows[id], t.columns)
  }

  /** A table is well formed for a tokeniser when its rows are typed and below the next row id,
      and rebuilding its indexes with that tokeniser would change nothing. */
  predicate WellFormed(t: Table, tok: string -> seq<string>) {
    Shape(t) && Buildable(t) && Built(t, tok) == t
  }

  /** The invariant of every table the engine holds: secondary index creation and pool merges rebuild with
      the simple tokeniser, every other operation with the configured one. */
  predicate Sound(t: Table, env: Env) {
    WellFormed(t, Tok(env, Simple)) || WellFormed(t, Tok(env, env.tokenizer))
  }

  // ---------------------------------------------------------------- filters

  function NormalizeFilter(columns: seq<Column>, filter: Option<Filter>, env: Env): Result<Option<Filter>, Error> {
    match filter
    case None => Ok(None)
    case Some(Equals(name, value)) =>
      (match FindColumn(columns, name)
       case None => Err(Execution)
       case Some(c) =>
         match ValidateValue(c, value, env)
         case Err(e) => Err(e)
         case Ok(v) => Ok(Some(Equals(c.name, v))))
    case Some(FullText(name, query)) =>
      (match FindColumn(columns, name)
       case None => Err(Execution)
       case Some(c) => if c.ty.TextType? then Ok(Some(FullText(c.name, query))) else Err(Execution))
    case Some(GeoWithin(name, point, meters, inclusive)) =>
      (match FindColumn(columns, name)
       case None => Err(Execution)
       case Some(c) =>
         if c.ty.PointType? then Ok(Some(GeoWithin(c.name, point, meters, inclusive))) else Err(Execution))
  }

  /** The filter as a plain predicate on rows, with the comparisons of the scan branches. */
  predicate Holds(row: Row, filter: Option<Filter>, env: Env) {
    match filter
    case None => true
    case Some(Equals(column, value)) => column in row && SameNumber(row[column], value)
    case Some(FullText(column, query)) =>
      var wanted := env.tokenize(env.tokenizer, query);
      && wanted != []
      && column in row && row[column].Text?
      && forall i :: 0 <= i < |wanted| ==> wanted[i] in env.tokenize(env.tokenizer, row[column].s)
    case Some(GeoWithin(column, point, meters, inclusive)) =>
      && column in row && row[column].Place?
      && var distance := env.geoDistance(row[column].p, point);
         Less64(distance, meters) || (inclusive && Same64(distance, meters))
  }

  /** The reference meaning of a filter: the matching row ids, by a scan, in ascending order. */
  function ScanIds(rows: map<nat, Row>, filter: Option<Filter>, env: Env): seq<nat> {
    Ascending(Hits(rows, filter, env))
  }

  function Hits(rows: map<nat, Row>, filter: Option<Filter>, env: Env): set<nat> {
    set id | id in rows && Holds(rows[id], filter, env)
  }

  /** The first index, in name order, on a column. */
  function FirstOn(names: seq<string>, indexes: map<string, Index>, column: string): (r: Option<string>)
    requires forall i :: 0 <= i < |names| ==> names[i] in indexes
    ensures r.Some? ==> r.value in names && indexes[r.value].column == column
    ensures r.None? ==> forall i :: 0 <= i < |names| ==> indexes[names[i]].column != column
  {
    if names == [] then None
    else if indexes[names[0]].column == column then Some(names[0])
    else FirstOn(names[1..], indexes, column)
  }

  function IndexOn(indexes: map<string, Index>, column: string): (r: Option<string>)
    ensures r.Some? ==> r.value in indexes && indexes[r.value].column == column
    ensures r.None? ==> forall n :: n in indexes ==> indexes[n].column != column
  {
    FirstOn(AscendingNames(indexes.Keys), indexes, column)
  }

  function Posting(entries: map<string, set<nat>>, key: string): set<nat> {
    if key in entries then entries[key] else {}
  }

  function Intersect(acc: set<nat>, entries: map<string, set<nat>>, tokens: seq<string>): set<nat> {
    if tokens == [] then acc else Intersect(acc * Posting(entries, tokens[0]), entries, tokens[1..])
  }

  /** `match_fulltext`: intersect the postings of an index, or scan. */
  function MatchFulltext(t: Table, column: string, query: string, env: Env): seq<nat> {
    var tokens := env.tokenize(env.tokenizer, query);
    if tokens == [] then [] else
      match IndexOn(t.fulltext, column)
      case Some(n) =>
        Ascending(Intersect(Posting(t.fulltext[n].entries, tokens[0]), t.fulltext[n].entries, tokens[1..]))
      case None => ScanIds(t.rows, Some(FullText(column, query)), env)
  }

  /** Equality: the primary map, else the first secondary index on the column, else a scan. */
  function MatchEquals(t: Table, column: string, value: Value, env: Env): Result<seq<nat>, Error> {
    match IndexKey(value)
    case Err(e) => Err(e)
    case Ok(key) =>
      if t.primaryKey == Some(column) then
        Ok(if key in t.primary then [t.primary[key]] else [])
      else
        match IndexOn(t.indexes, column)
        case Some(n) => Ok(Ascending(Posting(t.indexes[n].entries, key)))
        case None => Ok(ScanIds(t.rows, Some(Equals(column, value)), env))
  }

  /** `matching_row_ids`: the access path the engine takes for a normalised filter. */
  function MatchIds(t: Table, filter: Option<Filter>, env: Env): Result<seq<nat>, Error> {
    match filter
    case None => Ok(Ascending(t.rows.Keys))
    case Some(Equals(column, value)) => MatchEquals(t, column, value, env)
    case Some(FullText(column, query)) => Ok(MatchFulltext(t, column, query, env))
    case Some(GeoWithin(_, _, _, _)) => Ok(ScanIds(t.rows, filter, env))
  }

  /** Normalise, then match: what UPDATE, DELETE, SELECT and the pool's row locking all start with. */
  function Matching(t: Table, filter: Option<Filter>, env: Env): Result<seq<nat>, Error> {
    match NormalizeFilter(t.columns, filter, env)
    case Err(e) => Err(e)
    case Ok(f) => MatchIds(t, f, env)
  }

  // ---------------------------------------------------------------- operations

  function NewTable(name: string, columns: seq<Column>): Result<Table, Error> {
    if DistinctNames(columns) && OnePrimary(columns)
    then Ok(Table(name, columns, map[], 1, PrimaryColumn(columns), map[], map[], map[]))
    else Err(Execution)
  }

  predicate NameTaken(t: Table, name: string) { name in t.indexes || name in t.fulltext }

  function AddIndex(t: Table, name: string, column: string, env: Env): Result<Table, Error> {
    if FindColumn(t.columns, column).None? || NameTaken(t, name) then Err(Execution)
    else Rebuild(t.(indexes := t.indexes[name := Index(column, map[])]), Tok(env, Simple))
  }

  function AddFulltext(t: Table, name: string, column: string, env: Env): Result<Table, Error> {
    match FindColumn(t.columns, column)
    case None => Err(Execution)
    case Some(c) =>
      if !c.ty.TextType? || NameTaken(t, name) then Err(Execution)
      else Rebuild(t.(fulltext := t.fulltext[name := Index(column, map[])]), Tok(env, env.tokenizer))
  }

  function NullRow(columns: seq<Column>): Row {
    map n | n in Names(columns) :: Null
  }

  /** Assign validated values to the named columns, left to right. */
  function FillRow(columns: seq<Column>, targets: seq<string>, values: seq<Value>, env: Env, row: Row):
    Result<Row, Error>
    requires |targets| == |values|
  {
    if targets == [] then Ok(row) else
      match FindColumn(columns, targets[0])
      case None => Err(Execution)
      case Some(c) =>
        match ValidateValue(c, values[0], env)
        case Err(e) => Err(e)
        case Ok(v) => FillRow(columns, targets[1..], values[1..], env, row[c.name := v])
  }

  function ColumnNames(columns: seq<Column>): (r: seq<string>)
    ensures |r| == |columns|
    ensures forall i :: 0 <= i < |r| ==> r[i] == columns[i].name
  {
    seq(|columns|, i requires 0 <= i < |columns| => columns[i].name)
  }

  function Targets(t: Table, targets: Option<seq<string>>): seq<string> {
    if targets.Some? then targets.value else ColumnNames(t.columns)
  }

  /** The row an INSERT would store, if its columns and values are acceptable. */
  function NewRow(t: Table, targets: Option<seq<string>>, values: seq<Value>, env: Env): Result<Row, Error> {
    if |Targets(t, targets)| != |values| then Err(Execution)
    else FillRow(t.columns, Targets(t, targets), values, env, NullRow(t.columns))
  }

  /** `validate_primary_insert`. */
  predicate PrimaryFree(t: Table, row: Row) {
    t.primaryKey.Some? ==>
      && t.primaryKey.value in row
      && !row[t.primaryKey.value].Null?
      && IndexKey(row[t.primaryKey.value]).Ok?
      && IndexKey(row[t.primaryKey.value]).value !in t.primary
  }

  function WithRow(t: Table, row: Row): Table {
    t.(rows := t.rows[t.nextRowId := row], nextRowId := t.nextRowId + 1)
  }

  function InsertRow(t: Table, targets: Option<seq<string>>, values: seq<Value>, env: Env): Result<Table, Error> {
    match NewRow(t, targets, values, env)
    case Err(e) => Err(e)
    case Ok(row) =>
      if !PrimaryFree(t, row) then Err(Execution)
      else Rebuild(WithRow(t, row), Tok(env, env.tokenizer))
  }

  function NormalizeAssignments(columns: seq<Column>, assignments: seq<(string, Value)>, env: Env)
    : Result<seq<(string, Value)>, Error>
  {
    if assignments == [] then Ok([]) else
      match FindColumn(columns, assignments[0].0)
      case None => Err(Execution)
      case Some(c) =>
        match ValidateValue(c, assignments[0].1, env)
        case Err(e) => Err(e)
        case Ok(v) =>
          match NormalizeAssignments(columns, assignments[1..], env)
          case Err(e) => Err(e)
          case Ok(rest) => Ok([(c.name, v)] + rest)
  }

  function Assign(row: Row, assignments: seq<(string, Value)>): Row
    decreases assignments
  {
    if assignments == [] then row else Assign(row[assignments[0].0 := assignments[0].1], assignments[1..])
  }

  function AssignAll(rows: map<nat, Row>, ids: seq<nat>, assignments: seq<(string, Value)>): map<nat, Row> {
    map id | id in rows :: if id in ids then Assign(rows[id], assignments) else rows[id]
  }

  /** Store the new rows and index them; when they cannot be indexed, the old rows are put back and
      indexed again. */
  function Reassign(t: Table, ids: seq<nat>, norm: seq<(string, Value)>, tok: string -> seq<string>)
    : (Table, Result<nat, Error>)
  {
    match Rebuild(t.(rows := AssignAll(t.rows, ids, norm)), tok)
    case Ok(u) => (u, Ok(|ids|))
    case Err(e) =>
      match Rebuild(t, tok)
      case Ok(u) => (u, Err(e))
      case Err(_) => (t, Err(e))
  }

  /** The table after an UPDATE, and its outcome. */
  function UpdateRows(t: Table, assignments: seq<(string, Value)>, filter: Option<Filter>, env: Env)
    : (Table, Result<nat, Error>)
  {
    match Matching(t, filter, env)
    case Err(e) => (t, Err(e))
    case Ok(ids) =>
      match NormalizeAssignments(t.columns, assignments, env)
      case Err(e) => (t, Err(e))
      case Ok(norm) => Reassign(t, ids, norm, Tok(env, env.tokenizer))
  }

  function WithoutRows(rows: map<nat, Row>, ids: seq<nat>): map<nat, Row> {
    map id | id in rows && id !in ids :: rows[id]
  }

  function DeleteRows(t: Table, filter: Option<Filter>, env: Env): Result<(Table, nat), Error> {
    match Matching(t, filter, env)
    case Err(e) => Err(e)
    case Ok(ids) =>
      match Rebuild(t.(rows := WithoutRows(t.rows, ids)), Tok(env, env.tokenizer))
      case Err(e) => Err(e)
      case Ok(u) => Ok((u, |ids|))
  }
}
