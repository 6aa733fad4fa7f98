/** Column values. Floats are their bit patterns, so equality of values in Dafny is bit-for-bit
    equality; the numeric equality that `PartialEq` derives is the separate `SameNumber` family. */
module Values {
  type I64 = i: int | -0x8000_0000_0000_0000 <= i < 0x8000_0000_0000_0000
  type F64 = b: nat | b < 0x1_0000_0000_0000_0000
  type F32 = b: nat | b < 0x1_0000_0000

  const NEGATIVE_ZERO_64: F64 := 0x8000_0000_0000_0000
  const NEGATIVE_ZERO_32: F32 := 0x8000_0000

  predicate Finite64(b: F64) { b / 0x10_0000_0000_0000 % 0x800 != 0x7FF }
  predicate Finite32(b: F32) { b / 0x80_0000 % 0x100 != 0xFF }

  predicate NaN64(b: F64) { !Finite64(b) && b % 0x10_0000_0000_0000 != 0 }
  predicate NaN32(b: F32) { !Finite32(b) && b % 0x80_0000 != 0 }

  /** `==` on floats: a NaN equals nothing, and the two zeros are equal. */
  predicate Same64(a: F64, b: F64) {
    !NaN64(a) && !NaN64(b) && (a == b || (a % NEGATIVE_ZERO_64 == 0 && b % NEGATIVE_ZERO_64 == 0))
  }
  predicate Same32(a: F32, b: F32) {
    !NaN32(a) && !NaN32(b) && (a == b || (a % NEGATIVE_ZERO_32 == 0 && b % NEGATIVE_ZERO_32 == 0))
  }

  /** `<` on floats. */
  predicate Less64(a: F64, b: F64) {
    && !NaN64(a) && !NaN64(b) && !Same64(a, b)
    && if a < NEGATIVE_ZERO_64 then a < b < NEGATIVE_ZERO_64 else b < a
  }

  /** What `i64 as f64` yields: a finite float, and never the negative zero. */
  type IntFloat = f: F64 | Finite64(f) && f != NEGATIVE_ZERO_64

  datatype Point = Point(lon: F64, lat: F64)

  datatype Value =
    | Null
    | Integer(i: I64)
    | Float(f: F64)
    | Boolean(b: bool)
    | Text(s: string)
    | Vector(v: seq<F32>)
    | Place(p: Point)

  type Row = map<string, Value>

  predicate Finite(v: Value) {
    match v
    case Float(f) => Finite64(f)
    case Vector(xs) => forall i :: 0 <= i < |xs| ==> Finite32(xs[i])
    case Place(p) => Finite64(p.lon) && Finite64(p.lat)
    case _ => true
  }

  predicate NoNegativeZero(v: Value) {
    match v
    case Float(f) => f != NEGATIVE_ZERO_64
    case Vector(xs) => NEGATIVE_ZERO_32 !in xs
    case Place(p) => p.lon != NEGATIVE_ZERO_64 && p.lat != NEGATIVE_ZERO_64
    case _ => true
  }

  /** `PartialEq` on values, which is what a table scan compares with. */
  predicate SameNumber(a: Value, b: Value) {
    match (a, b)
    case (Float(x), Float(y)) => Same64(x, y)
    case (Vector(xs), Vector(ys)) => |xs| == |ys| && forall i :: 0 <= i < |xs| ==> Same32(xs[i], ys[i])
    case (Place(p), Place(q)) => Same64(p.lon, q.lon) && Same64(p.lat, q.lat)
    case _ => a == b
  }

  lemma SameNumberSymmetric(a: Value, b: Value)
    ensures SameNumber(a, b) == SameNumber(b, a)
  {}

  lemma ZeroPatterns(a: F64, c: F32)
    ensures a % NEGATIVE_ZERO_64 == 0 ==> a == 0 || a == NEGATIVE_ZERO_64
    ensures c % NEGATIVE_ZERO_32 == 0 ==> c == 0 || c == NEGATIVE_ZERO_32
  {}

  /** On finite values the scan's equality and bit equality part company only at the negative zero. */
  lemma SameNumberIsEquality(a: Value, b: Value)
    requires Finite(a)
    ensures a == b ==> SameNumber(a, b)
    ensures NoNegativeZero(a) && NoNegativeZero(b) && SameNumber(a, b) ==> a == b
  {
    match (a, b)
    case (Float(x), Float(y)) =>
      ZeroPatterns(x, 0);
      ZeroPatterns(y, 0);
    case (Place(p), Place(q)) =>
      ZeroPatterns(p.lon, 0);
      ZeroPatterns(q.lon, 0);
      ZeroPatterns(p.lat, 0);
      ZeroPatterns(q.lat, 0);
    case (Vector(xs), Vector(ys)) =>
      if NoNegativeZero(a) && NoNegativeZero(b) && SameNumber(a, b) {
        forall i | 0 <= i < |xs| ensures xs[i] == ys[i] {
          assert Same32(xs[i], ys[i]) && xs[i] in xs && ys[i] in ys;
          ZeroPatterns(0, xs[i]);
          ZeroPatterns(0, ys[i]);
        }
      }
    case _ =>
  }
}
