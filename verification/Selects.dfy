/** SELECT (`select_with_options`): vector scoring, ordering, limit and projection. */
module Selects {
  import opened Basics
  import opened Values
  import opened Ast
  import opened Tables

  type Scored = (F64, nat)

  // ---------------------------------------------------------------- scoring

  /** One pass over the candidate rows: the reference for both scoring loops. Rows without a vector in
      the column are skipped, and the first distance error ends the pass. */
  function ScorePass(rows: map<nat, Row>, ids: seq<nat>, column: string, target: seq<F32>, env: Env)
    : Result<seq<Scored>, string>
  {
    if ids == [] then Ok([])
    else if ids[0] in rows && column in rows[ids[0]] && rows[ids[0]][column].Vector? then
      match env.distance(rows[ids[0]][column].v, target)
      case Err(e) => Err(e)
      case Ok(d) =>
        match ScorePass(rows, ids[1..], column, target, env)
        case Err(e) => Err(e)
        case Ok(rest) => Ok([(d, ids[0])] + rest)
    else ScorePass(rows, ids[1..], column, target, env)
  }

  function Extend(done: seq<Scored>, more: Result<seq<Scored>, string>): Result<seq<Scored>, string> {
    if more.Ok? then Ok(done + more.value) else more
  }

  lemma {:induction false} ScorePassSplits(rows: map<nat, Row>, a: seq<nat>, b: seq<nat>, column: string,
                                           target: seq<F32>, env: Env)
    ensures ScorePass(rows, a + b, column, target, env) ==
            var first := ScorePass(rows, a, column, target, env);
            if first.Err? then first else Extend(first.value, ScorePass(rows, b, column, target, env))
  {
    var rest := ScorePass(rows, b, column, target, env);
    if a == [] {
      assert a + b == b;
      assert rest.Ok? ==> [] + rest.value == rest.value;
    } else {
      assert (a + b)[0] == a[0] && (a + b)[1..] == a[1..] + b;
      ScorePassSplits(rows, a[1..], b, column, target, env);
      var tail := ScorePass(rows, a[1..], column, target, env);
      var first := ScorePass(rows, a, column, target, env);
      if first.Ok? && rest.Ok? && |first.value| > |tail.value| {
        assert first.value == [first.value[0]] + tail.value;
        assert [first.value[0]] + (tail.value + rest.value) == first.value + rest.value;
      }
    }
  }

  lemma ExtendTwice(a: seq<Scored>, b: seq<Scored>, more: Result<seq<Scored>, string>)
    ensures Extend(a, Extend(b, more)) == Extend(a + b, more)
    ensures Extend([], more) == more
  {
    if more.Ok? {
      assert a + (b + more.value) == (a + b) + more.value;
      assert [] + more.value == more.value;
    }
  }

  /** `vector_scores_chunk`. */
  method VectorScoresChunk(rows: map<nat, Row>, ids: seq<nat>, column: string, target: seq<F32>, env: Env)
    returns (r: Result<seq<Scored>, string>)
    ensures r == ScorePass(rows, ids, column, target, env)
  {
    var scored: seq<Scored> := [];
    var i := 0;
    assert ids[0..] == ids;
    ExtendTwice([], [], ScorePass(rows, ids, column, target, env));
    while i < |ids|
      invariant 0 <= i <= |ids|
      invariant ScorePass(rows, ids, column, target, env) ==
                Extend(scored, ScorePass(rows, ids[i..], column, target, env))
    {
      assert ids[i..][1..] == ids[i + 1..];
      if ids[i] in rows && column in rows[ids[i]] && rows[ids[i]][column].Vector? {
        var d := env.distance(rows[ids[i]][column].v, target);
        if d.Err? { return Err(d.error); }
        ExtendTwice(scored, [(d.value, ids[i])], ScorePass(rows, ids[i + 1..], column, target, env));
        scored := scored + [(d.value, ids[i])];
      }
      i := i + 1;
    }
    assert ids[i..] == [] && scored + [] == scored;
    r := Ok(scored);
  }

  /** The worker results, one per chunk, joined in chunk order; the first failed chunk decides. */
  method JoinScores(chunks: seq<seq<nat>>, results: seq<Result<seq<Scored>, string>>,
                    rows: map<nat, Row>, column: string, target: seq<F32>, env: Env)
    returns (r: Result<seq<Scored>, string>)
    requires |chunks| == |results|
    requires forall k :: 0 <= k < |chunks| ==> results[k] == ScorePass(rows, chunks[k], column, target, env)
    ensures r == ScorePass(rows, Flatten(chunks), column, target, env)
  {
    var scored: seq<Scored> := [];
    var k := 0;
    assert chunks[0..] == chunks;
    ExtendTwice([], [], ScorePass(rows, Flatten(chunks), column, target, env));
    while k < |results|
      invariant 0 <= k <= |results|
      invariant ScorePass(rows, Flatten(chunks), column, target, env) ==
                Extend(scored, ScorePass(rows, Flatten(chunks[k..]), column, target, env))
    {
      assert chunks[k..][1..] == chunks[k + 1..];
      ScorePassSplits(rows, chunks[k], Flatten(chunks[k + 1..]), column, target, env);
      if results[k].Err? { return results[k]; }
      ExtendTwice(scored, results[k].value, ScorePass(rows, Flatten(chunks[k + 1..]), column, target, env));
      scored := scored + results[k].value;
      k := k + 1;
    }
    assert chunks[k..] == [] && scored + [] == scored;
    r := Ok(scored);
  }

  /** `vector_scores`: the candidates are cut into one chunk per worker, every chunk is scored on its own,
      and the results are joined in chunk order. For every worker count the outcome is that of one pass,
      the first error included. */
  method VectorScores(rows: map<nat, Row>, ids: seq<nat>, column: string, target: seq<F32>, env: Env)
    returns (r: Result<seq<Scored>, string>)
    ensures r == ScorePass(rows, ids, column, target, env)
  {
    if env.workers <= 1 || |ids| < 2 {
      r := VectorScoresChunk(rows, ids, column, target, env);
      return;
    }
    var workers := if env.workers < |ids| then env.workers else |ids|;
    var size := ChunkSize(|ids|, workers);
    var chunks: seq<seq<nat>> := [];
    var results: seq<Result<seq<Scored>, string>> := [];
    var at := 0;
    while at < |ids|
      invariant 0 <= at <= |ids| && |chunks| == |results|
      invariant Flatten(chunks) == ids[..at]
      invariant forall k :: 0 <= k < |chunks| ==> results[k] == ScorePass(rows, chunks[k], column, target, env)
    {
      var end := if at + size < |ids| then at + size else |ids|;
      var scored := VectorScoresChunk(rows, ids[at..end], column, target, env);
      FlattenSnoc(chunks, ids[at..end]);
      assert ids[..end] == ids[..at] + ids[at..end];
      chunks := chunks + [ids[at..end]];
      results := results + [scored];
      at := end;
    }
    assert ids[..at] == ids;
    r := JoinScores(chunks, results, rows, column, target, env);
  }

  function ChunkSize(n: nat, workers: nat): (size: nat)
    requires 1 <= workers <= n
    ensures size >= 1
  {
    (n + workers - 1) / workers
  }

  function Flatten(chunks: seq<seq<nat>>): seq<nat> {
    if chunks == [] then [] else chunks[0] + Flatten(chunks[1..])
  }

  lemma {:induction false} FlattenAppend(a: seq<seq<nat>>, b: seq<seq<nat>>)
    ensures Flatten(a + b) == Flatten(a) + Flatten(b)
  {
    if a == [] {
      assert a + b == b;
    } else {
      assert (a + b)[1..] == a[1..] + b;
      FlattenAppend(a[1..], b);
    }
  }

  lemma FlattenSnoc(a: seq<seq<nat>>, c: seq<nat>)
    ensures Flatten(a + [c]) == Flatten(a) + c
  {
    FlattenAppend(a, [c]);
    assert [c][1..] == [] && Flatten([c]) == c;
  }

  // ---------------------------------------------------------------- ordering

  /** `f64::total_cmp` (section 5.10 of IEEE 754-2008) as a rank: negative patterns descend below zero. */
  function TotalRank(b: F64): int { if b < NEGATIVE_ZERO_64 then b else NEGATIVE_ZERO_64 - b - 1 }

  /** The comparison the sort uses: distance, then row id, both reversed for DESC. */
  predicate Before(a: Scored, b: Scored, descending: bool) {
    if descending then Nearer(b, a) else Nearer(a, b)
  }

  predicate Nearer(a: Scored, b: Scored) {
    TotalRank(a.0) < TotalRank(b.0) || (TotalRank(a.0) == TotalRank(b.0) && a.1 <= b.1)
  }

  ghost predicate SortedBy(s: seq<Scored>, descending: bool) {
    forall i, j :: 0 <= i < j < |s| ==> Before(s[i], s[j], descending)
  }

  lemma BeforeAntisymmetric(a: Scored, b: Scored, descending: bool)
    ensures Before(a, b, descending) && Before(b, a, descending) ==> a == b
    ensures Before(a, b, descending) || Before(b, a, descending)
  {}

  lemma ConsSorted(head: Scored, rest: seq<Scored>, descending: bool)
    requires SortedBy(rest, descending)
    requires forall y :: y in multiset(rest) ==> Before(head, y, descending)
    ensures SortedBy([head] + rest, descending)
  {
    assert forall j :: 0 <= j < |rest| ==> rest[j] in multiset(rest);
  }

  lemma HeadFirst(s: seq<Scored>, descending: bool)
    requires SortedBy(s, descending) && s != []
    ensures forall y :: y in multiset(s) ==> Before(s[0], y, descending)
  {
    forall y | y in multiset(s) ensures Before(s[0], y, descending) {
      var i :| 0 <= i < |s| && s[i] == y;
    }
  }

  lemma ConsMultiset(s: seq<Scored>)
    requires s != []
    ensures multiset(s) == multiset{s[0]} + multiset(s[1..])
  {
    assert s == [s[0]] + s[1..];
  }

  function Place(x: Scored, s: seq<Scored>, descending: bool): (r: seq<Scored>)
    requires SortedBy(s, descending)
    ensures multiset(r) == multiset(s) + multiset{x}
    ensures SortedBy(r, descending)
  {
    if s == [] then [x] else
      HeadFirst(s, descending);
      ConsMultiset(s);
      if Before(x, s[0], descending) then
        ConsSorted(x, s, descending);
        [x] + s
      else
        var rest := Place(x, s[1..], descending);
        ConsSorted(s[0], rest, descending);
        [s[0]] + rest
  }

  /** The sort of the scored rows. */
  function SortScored(s: seq<Scored>, descending: bool): (r: seq<Scored>)
    ensures multiset(r) == multiset(s)
    ensures SortedBy(r, descending)
  {
    if s == [] then [] else
      ConsMultiset(s);
      Place(s[0], SortScored(s[1..], descending), descending)
  }

  /** A sorted list is determined by its elements, so any sorting algorithm gives this one. */
  lemma {:induction false} SortedUnique(p: seq<Scored>, q: seq<Scored>, descending: bool)
    requires SortedBy(p, descending) && SortedBy(q, descending) && multiset(p) == multiset(q)
    ensures p == q
  {
    hide Before;
    assert |p| == |multiset(p)| == |q|;
    if p != [] {
      HeadFirst(p, descending);
      HeadFirst(q, descending);
      assert p[0] in multiset(p) && q[0] in multiset(q);
      BeforeAntisymmetric(p[0], q[0], descending);
      ConsMultiset(p);
      ConsMultiset(q);
      SortedUnique(p[1..], q[1..], descending);
      assert p == [p[0]] + p[1..] && q == [q[0]] + q[1..];
    }
  }

  function Reversed(s: seq<Scored>): (r: seq<Scored>)
    ensures |r| == |s|
    ensures forall i :: 0 <= i < |s| ==> r[i] == s[|s| - 1 - i]
    ensures multiset(r) == multiset(s)
  {
    if s == [] then [] else
      assert s == [s[0]] + s[1..];
      Reversed(s[1..]) + [s[0]]
  }

  /** DESC is the exact reverse of ASC, whatever order the rows were scored in. */
  lemma DescendingReverses(s: seq<Scored>, t: seq<Scored>)
    requires multiset(s) == multiset(t)
    ensures SortScored(s, true) == Reversed(SortScored(t, false))
    ensures SortScored(s, false) == SortScored(t, false)
  {
    var up := SortScored(t, false);
    forall i, j | 0 <= i < j < |up| ensures Before(Reversed(up)[i], Reversed(up)[j], true) {
      assert Before(up[|up| - 1 - j], up[|up| - 1 - i], false);
    }
    SortedUnique(SortScored(s, true), Reversed(up), true);
    SortedUnique(SortScored(s, false), up, false);
  }

  // ---------------------------------------------------------------- the query

  function RowIds(s: seq<Scored>): (r: seq<nat>)
    ensures |r| == |s|
  {
    seq(|s|, i requires 0 <= i < |s| => s[i].1)
  }

  predicate ProjectionOk(columns: seq<Column>, projection: Projection) {
    projection.Columns? ==>
      forall i :: 0 <= i < |projection.names| ==> FindColumn(columns, projection.names[i]).Some?
  }

  function ProjectRow(row: Row, projection: Projection): Row {
    match projection
    case All => row
    case Columns(names) => map n | n in names && n in row :: row[n]
  }

  function OrderedIds(t: Table, ids: seq<nat>, order: Option<Order>, env: Env): Result<seq<nat>, Error> {
    match order
    case None => Ok(ids)
    case Some(VectorDistance(column, target, descending)) =>
      match FindColumn(t.columns, column)
      case None => Err(Execution)
      case Some(c) =>
        if !c.ty.VectorType? then Err(Execution)
        else if env.dimensions.Some? && |target| != env.dimensions.value then Err(Execution)
        else
          match ScorePass(t.rows, ids, column, target, env)
          case Err(_) => Err(Execution)
          case Ok(scored) => Ok(RowIds(SortScored(scored, descending)))
  }

  function Limited(ids: seq<nat>, limit: Option<nat>): seq<nat> {
    if limit.Some? && limit.value < |ids| then ids[..limit.value] else ids
  }

  function ProjectAll(rows: map<nat, Row>, ids: seq<nat>, projection: Projection): seq<Row> {
    if ids == [] then []
    else if ids[0] in rows then [ProjectRow(rows[ids[0]], projection)] + ProjectAll(rows, ids[1..], projection)
    else ProjectAll(rows, ids[1..], projection)
  }

  method ProjectRows(rows: map<nat, Row>, ids: seq<nat>, projection: Projection) returns (out: seq<Row>)
    ensures out == ProjectAll(rows, ids, projection)
  {
    hide ProjectRow;
    out := [];
    var i := 0;
    assert ids[0..] == ids;
    while i < |ids|
      invariant 0 <= i <= |ids| && out + ProjectAll(rows, ids[i..], projection) == ProjectAll(rows, ids, projection)
    {
      assert ids[i..][1..] == ids[i + 1..];
      if ids[i] in rows { out := out + [ProjectRow(rows[ids[i]], projection)]; }
      i := i + 1;
    }
    assert ids[i..] == [] && out + [] == out;
  }

  /** The selected row ids in result order, before the limit. */
  function SelectIds(t: Table, projection: Projection, filter: Option<Filter>, order: Option<Order>, env: Env)
    : Result<seq<nat>, Error>
  {
    if !ProjectionOk(t.columns, projection) then Err(Execution) else
      match Matching(t, filter, env)
      case Err(e) => Err(e)
      case Ok(ids) => OrderedIds(t, ids, order, env)
  }

  function SelectRows(t: Table, projection: Projection, filter: Option<Filter>, order: Option<Order>,
                      limit: Option<nat>, env: Env)
    : Result<seq<Row>, Error>
  {
    match SelectIds(t, projection, filter, order, env)
    case Err(e) => Err(e)
    case Ok(ids) => Ok(ProjectAll(t.rows, Limited(ids, limit), projection))
  }

  lemma {:induction false} ProjectAllPrefix(rows: map<nat, Row>, ids: seq<nat>, projection: Projection, k: nat)
    requires k <= |ids| && forall i :: 0 <= i < |ids| ==> ids[i] in rows
    ensures |ProjectAll(rows, ids, projection)| == |ids|
    ensures ProjectAll(rows, ids[..k], projection) == ProjectAll(rows, ids, projection)[..k]
  {
    if ids != [] {
      ProjectAllPrefix(rows, ids[1..], projection, if k == 0 then 0 else k - 1);
      if k > 0 { assert ids[..k][1..] == ids[1..][..k - 1]; }
    }
  }
}
