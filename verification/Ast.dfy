/** The statements the engine executes (`sql/ast.rs`) and the runtime settings they depend on. */
module Ast {
  import opened Basics
  import opened Text
  import opened Values

  datatype ColumnType = IntegerType | FloatType | BooleanType | TextType | VectorType | PointType

  datatype Column = Column(name: string, ty: ColumnType, primaryKey: bool)

  datatype Projection = All | Columns(names: seq<string>)

  datatype Filter =
    | Equals(column: string, value: Value)
    | FullText(column: string, query: string)
    | GeoWithin(column: string, point: Point, meters: F64, inclusive: bool)

  datatype Order = VectorDistance(column: string, target: seq<F32>, descending: bool)

  datatype Statement =
    | Begin
    | Commit
    | Rollback
    | Explain(inner: Statement)
    | ParsedOnly(sql: string)
    | CreateTable(name: string, columns: seq<Column>)
    | CreateIndex(name: string, table: string, column: string, fulltext: bool)
    | Insert(table: string, targets: Option<seq<string>>, values: seq<Value>)
    | Select(table: string, projection: Projection, filter: Option<Filter>, order: Option<Order>, limit: Option<nat>)
    | Update(table: string, assignments: seq<(string, Value)>, filter: Option<Filter>)
    | Delete(table: string, filter: Option<Filter>)

  predicate MutatesCatalog(s: Statement) {
    s.CreateTable? || s.CreateIndex? || s.Insert? || s.Update? || s.Delete?
  }

  datatype Tokenizer = Simple | Whitespace | Exact

  /** The runtime options a statement sees, with the computations that are not modelled
      (tokenising, geographic and vector distance, integer to float conversion) as functions. */
  datatype Env = Env(
    tokenizer: Tokenizer,
    dimensions: Option<nat>,
    workers: nat,
    tokenize: (Tokenizer, string) -> seq<string>,
    geoDistance: (Point, Point) -> F64,
    distance: (seq<F32>, seq<F32>) -> Result<F64, string>,
    toFloat: I64 -> IntFloat)

  // ---------------------------------------------------------------- identifiers

  function TrimMatches(s: string, c: char): string
    decreases |s|
  {
    if s != [] && s[0] == c then TrimMatches(s[1..], c)
    else if s != [] && s[|s| - 1] == c then TrimMatches(s[..|s| - 1], c)
    else s
  }

  function LowerAscii(s: string): (t: string)
    ensures |t| == |s|
  {
    if s == [] then [] else
      [if 'A' <= s[0] <= 'Z' then (s[0] as int + 32) as char else s[0]] + LowerAscii(s[1..])
  }

  function NormalizeIdentifier(s: string): string {
    LowerAscii(TrimMatches(TrimMatches(TrimMatches(Trim(s), '`'), '"'), '\''))
  }

  // ---------------------------------------------------------------- columns

  function Names(columns: seq<Column>): set<string> {
    set i | 0 <= i < |columns| :: columns[i].name
  }

  /** The first column with the given stored name. */
  function ColumnNamed(columns: seq<Column>, name: string): (r: Option<Column>)
    ensures r.Some? ==> r.value in columns && r.value.name == name
    ensures r.None? <==> name !in Names(columns)
  {
    if columns == [] then None
    else if columns[0].name == name then Some(columns[0])
    else
      assert Names(columns) == {columns[0].name} + Names(columns[1..]) by {
        assert forall i :: 0 < i < |columns| ==> columns[i] == columns[1..][i - 1];
      }
      ColumnNamed(columns[1..], name)
  }

  function FindColumn(columns: seq<Column>, name: string): Option<Column> {
    ColumnNamed(columns, NormalizeIdentifier(name))
  }

  predicate DistinctNames(columns: seq<Column>) {
    forall i, j :: 0 <= i < j < |columns| ==> columns[i].name != columns[j].name
  }

  predicate OnePrimary(columns: seq<Column>) {
    forall i, j :: 0 <= i < j < |columns| ==> !(columns[i].primaryKey && columns[j].primaryKey)
  }

  /** The name of the column declared as primary key, if there is one. */
  function PrimaryColumn(columns: seq<Column>): (r: Option<string>)
    ensures r.Some? ==> exists i :: 0 <= i < |columns| && columns[i].primaryKey && columns[i].name == r.value
    ensures r.None? <==> forall i :: 0 <= i < |columns| ==> !columns[i].primaryKey
  {
    if columns == [] then None
    else if columns[0].primaryKey then Some(columns[0].name)
    else
      assert forall i :: 0 < i < |columns| ==> columns[i] == columns[1..][i - 1];
      assert forall i :: 0 <= i < |columns[1..]| ==> columns[1..][i] == columns[i + 1];
      PrimaryColumn(columns[1..])
  }

  // ---------------------------------------------------------------- values

  /** The stored form of a value for a column, or an error: integers widen to floats, and
      floats, vectors and points must be finite. */
  function ValidateValue(column: Column, v: Value, env: Env): (r: Result<Value, Error>)
    ensures r.Ok? ==> Fits(column.ty, r.value)
  {
    match (column.ty, v)
    case (_, Null) => Ok(Null)
    case (IntegerType, Integer(_)) => Ok(v)
    case (FloatType, Float(f)) => if Finite64(f) then Ok(v) else Err(Execution)
    case (FloatType, Integer(i)) => Ok(Float(env.toFloat(i)))
    case (BooleanType, Boolean(_)) => Ok(v)
    case (TextType, Text(_)) => Ok(v)
    case (VectorType, Vector(xs)) =>
      if !Finite(v) then Err(Execution)
      else if env.dimensions.Some? && |xs| != env.dimensions.value then Err(Execution)
      else Ok(v)
    case (PointType, Place(_)) => if Finite(v) then Ok(v) else Err(Execution)
    case _ => Err(Execution)
  }

  /** What a column of the given type may hold. */
  predicate Fits(ty: ColumnType, v: Value) {
    && Finite(v)
    && match v
       case Null => true
       case Integer(_) => ty.IntegerType?
       case Float(_) => ty.FloatType?
       case Boolean(_) => ty.BooleanType?
       case Text(_) => ty.TextType?
       case Vector(_) => ty.VectorType?
       case Place(_) => ty.PointType?
  }
}
