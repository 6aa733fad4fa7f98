/** What ORDER BY a vector distance means: the order of the answer read off the bit patterns of the distances, and
    as the numbers they stand for. */
module Orders {
  import opened Basics
  import opened Values
  import opened Ast
  import opened Tables
  import opened Selects
  import opened AccessPaths
  import opened TableMeaning

  // ---------------------------------------------------------------- numbers

  const FRACTION := 0x10_0000_0000_0000

  function Pow2(n: nat): (p: nat)
    ensures p >= 1
  {
    if n == 0 then 1 else 2 * Pow2(n - 1)
  }

  /** A pattern without its sign bit, as a multiple of 2^-1074 (section 3.4 of IEEE 754-2008). */
  function Magnitude(m: nat): nat {
    if m / FRACTION == 0 then m % FRACTION else (FRACTION + m % FRACTION) * Pow2(m / FRACTION - 1)
  }

  /** The number a pattern stands for, as a multiple of 2^-1074; the infinities as numbers beyond all finite ones. */
  function Number(b: F64): int {
    if b < NEGATIVE_ZERO_64 then Magnitude(b) as int else -(Magnitude(b - NEGATIVE_ZERO_64) as int)
  }

  lemma {:induction false} Pow2Grows(m: nat, n: nat)
    requires m <= n
    ensures Pow2(m) <= Pow2(n)
  {
    if m < n { Pow2Grows(m, n - 1); }
  }

  /** A larger exponent outweighs every fraction. */
  lemma MagnitudeBounds(m: nat)
    ensures Magnitude(m) < FRACTION * Pow2(m / FRACTION)
    ensures m / FRACTION > 0 ==> FRACTION * Pow2(m / FRACTION - 1) <= Magnitude(m)
  {
    var e := m / FRACTION;
    if e > 0 {
      var p := Pow2(e - 1);
      assert (FRACTION + m % FRACTION) * p <= (2 * FRACTION - 1) * p;
      assert (FRACTION + m % FRACTION) * p >= FRACTION * p;
    }
  }

  lemma MagnitudeMonotone(a: nat, b: nat)
    requires a < b
    ensures Magnitude(a) < Magnitude(b)
  {
    var (d, e) := (a / FRACTION, b / FRACTION);
    if d < e {
      MagnitudeBounds(a);
      MagnitudeBounds(b);
      Pow2Grows(d, e - 1);
      assert FRACTION * Pow2(d) <= FRACTION * Pow2(e - 1);
    } else {
      assert d == e && a % FRACTION < b % FRACTION;
      if d > 0 { Scaled(FRACTION + a % FRACTION, FRACTION + b % FRACTION, Pow2(d - 1)); }
    }
  }

  lemma Scaled(x: nat, y: nat, p: nat)
    requires x < y && p >= 1
    ensures x * p < y * p
  {}

  /** The order of the sort is the order of numbers. */
  lemma NumbersInOrder(a: Scored, b: Scored, descending: bool)
    requires Before(a, b, descending)
    ensures if descending then Number(a.0) >= Number(b.0) else Number(a.0) <= Number(b.0)
  {
    hide Magnitude;
    var (x, y) := if descending then (b.0, a.0) else (a.0, b.0);
    if x < NEGATIVE_ZERO_64 && y < NEGATIVE_ZERO_64 && x != y { MagnitudeMonotone(x, y); }
    if x >= NEGATIVE_ZERO_64 && y >= NEGATIVE_ZERO_64 && x != y {
      MagnitudeMonotone(y - NEGATIVE_ZERO_64, x - NEGATIVE_ZERO_64);
    }
  }

  /** `<` and `==` on floats compare the numbers the patterns stand for. */
  lemma ComparesNumbers(a: F64, b: F64)
    ensures Less64(a, b) <==> !NaN64(a) && !NaN64(b) && Number(a) < Number(b)
    ensures Same64(a, b) <==> !NaN64(a) && !NaN64(b) && Number(a) == Number(b)
  {
    hide Magnitude, Number, NaN64;
    var (x, y) := (a % NEGATIVE_ZERO_64, b % NEGATIVE_ZERO_64);
    ZeroPatterns(a, 0);
    ZeroPatterns(b, 0);
    MagnitudeOrder(x, y);
    MagnitudeOrder(0, x);
    MagnitudeOrder(0, y);
    NumberOf(a);
    NumberOf(b);
    SignParts(a, b);
  }

  lemma SignParts(a: F64, b: F64)
    ensures a == (if a < NEGATIVE_ZERO_64 then 0 else NEGATIVE_ZERO_64) + a % NEGATIVE_ZERO_64
    ensures b == (if b < NEGATIVE_ZERO_64 then 0 else NEGATIVE_ZERO_64) + b % NEGATIVE_ZERO_64
  {}

  lemma MagnitudeOrder(x: nat, y: nat)
    ensures x < y <==> Magnitude(x) < Magnitude(y)
    ensures x == y <==> Magnitude(x) == Magnitude(y)
    ensures Magnitude(0) == 0
  {
    if x < y { MagnitudeMonotone(x, y); }
    if y < x { MagnitudeMonotone(y, x); }
  }

  lemma NumberOf(a: F64)
    ensures Number(a) == if a < NEGATIVE_ZERO_64 then Magnitude(a % NEGATIVE_ZERO_64) as int
                         else -(Magnitude(a % NEGATIVE_ZERO_64) as int)
  {
    assert a % NEGATIVE_ZERO_64 == if a < NEGATIVE_ZERO_64 then a else a - NEGATIVE_ZERO_64;
  }

  const INFINITY_64: nat := 0x7FF0_0000_0000_0000
  const INFINITY_32: nat := 0x7F80_0000

  /** The finite patterns are those that stand for less than infinity, whatever the sign, and the ones beyond
      infinity are no numbers. */
  lemma FiniteIsBelowInfinity(a: F64, c: F32)
    ensures Finite64(a) <==> Magnitude(a % NEGATIVE_ZERO_64) < Magnitude(INFINITY_64)
    ensures NaN64(a) <==> Magnitude(a % NEGATIVE_ZERO_64) > Magnitude(INFINITY_64)
    ensures Finite32(c) <==> c % NEGATIVE_ZERO_32 < INFINITY_32
    ensures NaN32(c) <==> c % NEGATIVE_ZERO_32 > INFINITY_32
  {
    hide Magnitude;
    MagnitudeOrder(a % NEGATIVE_ZERO_64, INFINITY_64);
    MagnitudeOrder(INFINITY_64, a % NEGATIVE_ZERO_64);
    Exponents(a, c);
  }

  lemma Exponents(a: F64, c: F32)
    ensures Finite64(a) <==> a % NEGATIVE_ZERO_64 < INFINITY_64
    ensures NaN64(a) <==> a % NEGATIVE_ZERO_64 > INFINITY_64
    ensures Finite32(c) <==> c % NEGATIVE_ZERO_32 < INFINITY_32
    ensures NaN32(c) <==> c % NEGATIVE_ZERO_32 > INFINITY_32
  {}

  // ---------------------------------------------------------------- patterns

  /** The sort in terms of bit patterns alone, NaN and infinities included: among patterns without the sign bit the
      smaller one comes first, among those with it the larger one, negatives before the others, and equal patterns
      by row id; DESC is the mirror image. On finite distances this is the order of the numbers. */
  lemma SortedOnPatterns(s: seq<Scored>, descending: bool, i: nat, j: nat)
    requires i < j < |s|
    ensures |SortScored(s, descending)| == |s|
    ensures var r := SortScored(s, descending);
            var (x, y) := if descending then (r[j], r[i]) else (r[i], r[j]);
            && (x.0 < NEGATIVE_ZERO_64 && y.0 < NEGATIVE_ZERO_64 ==> x.0 < y.0 || (x.0 == y.0 && x.1 <= y.1))
            && (x.0 >= NEGATIVE_ZERO_64 && y.0 >= NEGATIVE_ZERO_64 ==> x.0 > y.0 || (x.0 == y.0 && x.1 <= y.1))
            && (x.0 >= NEGATIVE_ZERO_64 || y.0 < NEGATIVE_ZERO_64)
            && Number(x.0) <= Number(y.0)
  {
    hide SortScored, Magnitude;
    var r := SortScored(s, descending);
    assert |r| == |multiset(r)| == |s|;
    assert Before(r[i], r[j], descending);
    NumbersInOrder(r[i], r[j], descending);
  }

  // ---------------------------------------------------------------- the nearest rows

  /** The selected rows that take part in a vector order. */
  function Candidates(rows: map<nat, Row>, hits: set<nat>, column: string): set<nat> {
    set id | id in hits && id in rows && column in rows[id] && rows[id][column].Vector?
  }

  /** A row's distance, as the number it stands for, if it has one. */
  function Distance(rows: map<nat, Row>, id: nat, column: string, target: seq<F32>, env: Env): Option<int> {
    if id in rows && column in rows[id] && rows[id][column].Vector? then
      match env.distance(rows[id][column].v, target)
      case Err(_) => None
      case Ok(d) => if NaN64(d) then None else Some(Number(d))
    else None
  }

  /** In the order asked for, the second distance does not come before the first. */
  predicate InTurn(a: Option<int>, b: Option<int>, descending: bool) {
    a.Some? && b.Some? ==> if descending then a.value >= b.value else a.value <= b.value
  }

  lemma {:induction false} DistinctCount(ids: seq<nat>, s: set<nat>)
    requires forall i, j :: 0 <= i < j < |ids| ==> ids[i] != ids[j]
    requires forall id :: id in ids <==> id in s
    ensures |ids| == |s|
  {
    if ids == [] {
      assert s == {};
    } else {
      var rest := s - {ids[0]};
      forall id ensures id in ids[1..] <==> id in rest {
        assert id in ids <==> id == ids[0] || id in ids[1..];
      }
      DistinctCount(ids[1..], rest);
    }
  }

  lemma ScoresInTurn(rows: map<nat, Row>, a: nat, b: nat, column: string, target: seq<F32>, descending: bool, env: Env)
    requires Scorable(rows, a, column, target, env) && Scorable(rows, b, column, target, env)
    requires Before(Score(rows, a, column, target, env), Score(rows, b, column, target, env), descending)
    ensures InTurn(Distance(rows, a, column, target, env), Distance(rows, b, column, target, env), descending)
  {
    hide Before, Number;
    var (x, y) := (Score(rows, a, column, target, env), Score(rows, b, column, target, env));
    NumbersInOrder(x, y, descending);
  }

  /** A vector search with LIMIT k returns k of the selected rows with a vector, or all of them if there are fewer;
      no row left out is nearer than one returned, and the rows returned get no nearer. DESC returns the farthest
      ones. */
  lemma NearestRows(t: Table, projection: Projection, filter: Option<Filter>, column: string, target: seq<F32>,
                    descending: bool, limit: Option<nat>, env: Env)
    returns (ids: seq<nat>)
    requires Sound(t, env)
    requires SelectRows(t, projection, filter, Some(VectorDistance(column, target, descending)), limit, env).Ok?
    ensures NormalizeFilter(t.columns, filter, env).Ok?
    ensures var order := Some(VectorDistance(column, target, descending));
            var r := SelectRows(t, projection, filter, order, limit, env).value;
            var all := Candidates(t.rows, Found(t, NormalizeFilter(t.columns, filter, env).value, env), column);
            && |r| == |ids| == (if limit.Some? && limit.value < |all| then limit.value else |all|)
            && (forall i :: 0 <= i < |ids| ==> ids[i] in all && r[i] == ProjectRow(t.rows[ids[i]], projection))
            && (forall i, j :: 0 <= i < j < |ids| ==>
                  && ids[i] != ids[j]
                  && InTurn(Distance(t.rows, ids[i], column, target, env),
                            Distance(t.rows, ids[j], column, target, env), descending))
            && forall i, id :: 0 <= i < |ids| && id in all && id !in ids ==>
                 InTurn(Distance(t.rows, ids[i], column, target, env), Distance(t.rows, id, column, target, env),
                        descending)
  {
    hide Sound, NormalizeFilter, SelectRows, Found, FoundMeans, ProjectRow, OrderOk, InOrder, Distance;
    var order := Some(VectorDistance(column, target, descending));
    var listed := SelectMeaning(t, projection, filter, order, limit, env);
    var hits := Found(t, NormalizeFilter(t.columns, filter, env).value, env);
    var all := Candidates(t.rows, hits, column);
    var r := SelectRows(t, projection, filter, order, limit, env).value;
    InOrderFacts(t, hits, column, target, descending, env, listed);
    DistinctCount(listed, all);
    ids := listed[..|r|];
    assert forall i :: 0 <= i < |ids| ==> ids[i] == listed[i] && ids[i] in listed;
    forall i, id | 0 <= i < |ids| && id in all && id !in ids
      ensures InTurn(Distance(t.rows, ids[i], column, target, env), Distance(t.rows, id, column, target, env),
                     descending)
    {
      var k :| 0 <= k < |listed| && listed[k] == id;
    }
  }

  lemma InOrderFacts(t: Table, hits: set<nat>, column: string, target: seq<F32>, descending: bool, env: Env,
                     ids: seq<nat>)
    requires OrderOk(t, hits, Some(VectorDistance(column, target, descending)), env)
    requires InOrder(t, hits, Some(VectorDistance(column, target, descending)), env, ids)
    ensures forall id :: id in ids <==> id in Candidates(t.rows, hits, column)
    ensures forall i, j :: 0 <= i < j < |ids| ==>
              && ids[i] != ids[j]
              && InTurn(Distance(t.rows, ids[i], column, target, env), Distance(t.rows, ids[j], column, target, env),
                        descending)
  {
    hide Before, Score, FindColumn, Distance;
    forall i, j | 0 <= i < j < |ids|
      ensures ids[i] != ids[j]
      ensures InTurn(Distance(t.rows, ids[i], column, target, env), Distance(t.rows, ids[j], column, target, env),
                     descending)
    {
      assert ids[i] in ids && ids[j] in ids;
      ScoresInTurn(t.rows, ids[i], ids[j], column, target, descending, env);
    }
  }
}
