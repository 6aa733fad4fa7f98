/** What a client of the single-connection engine is told: every outcome of a run follows from the statements sent
    and the outcomes before it. */
module Sessions {
  import opened Basics
  import opened Values
  import opened Ast
  import opened Tables
  import opened TableFacts
  import opened AccessPaths
  import opened TableMeaning
  import opened Catalogs
  import opened Engine
  import opened Filters
  import opened Databases

  /** The statements whose effects the next one sees. */
  function Visible(log: Log): seq<Statement> { log.committed + if log.open.Some? then log.open.value else [] }

  /** The outcome a client may expect. A control statement succeeds exactly when it is its turn and, for COMMIT, the
      file can be written. EXPLAIN succeeds for the SELECTs whose filter is accepted. Every other statement answers
      as it does on the replay of the log, except that outside a transaction a change that cannot be written fails. */
  ghost predicate Expected(start: Catalog, path: bool, log: Log, s: Statement, ok: bool, r: Outcome, env: Env) {
    var c := Replay(start, Visible(log), env);
    match s
    case Begin => r == if log.open.None? then Ok(Message) else Err(Execution)
    case Commit =>
      r == if log.open.None? then Err(Execution) else if path && !ok then Err(Io) else Ok(Message)
    case Rollback => r == if log.open.Some? then Ok(Message) else Err(Execution)
    case Explain(inner) =>
      && (r.Ok? <==> inner.Select? && inner.table in c && Accepts(c[inner.table], inner.filter, env))
      && (r.Ok? ==> r.value == Message)
    case _ =>
      var alone := Exec(c, s, env).1;
      r == if alone.Ok? && MutatesCatalog(s) && log.open.None? && path && !ok then Err(Io) else alone
  }

  lemma StepExpected(db: Db, log: Log, start: Catalog, s: Statement, ok: bool, env: Env)
    requires DbSound(db, env) && Tracks(db, log, start, env)
    ensures Expected(start, db.path, log, s, ok, Step(db, s, ok, env).1, env)
  {
    hide Exec, CatalogSound, EncodeCatalog, ExplainOutcome, Replay, Accepts;
    assert log.committed + [] == log.committed;
    assert db.Active() == Replay(start, Visible(log), env);
    if s.Explain? { ExplainAnswer(db.Active(), s.inner, env); }
  }

  lemma ExplainAnswer(c: Catalog, s: Statement, env: Env)
    requires CatalogSound(c, env)
    ensures ExplainOutcome(c, s, env).Ok? <==> s.Select? && s.table in c && Accepts(c[s.table], s.filter, env)
    ensures ExplainOutcome(c, s, env).Ok? ==> ExplainOutcome(c, s, env).value == Message
  {
    hide Accepts, Sound, Matching;
    if s.Select? && s.table in c { FilterMeans(c[s.table], s.filter, env); }
  }

  lemma {:induction false} RunPath(db: Db, events: seq<Event>, env: Env)
    ensures Run(db, events, env).path == db.path
  {
    hide Exec, EncodeCatalog, ExplainOutcome;
    if events != [] { RunPath(db, events[..|events| - 1], env); }
  }

  lemma {:induction false} OutcomeAt(db: Db, events: seq<Event>, i: nat, env: Env)
    requires i < |events|
    ensures Outcomes(db, events, env)[i] == Step(Run(db, events[..i], env), events[i].statement, events[i].ok, env).1
  {
    hide Step;
    var n := |events| - 1;
    if i < n {
      OutcomeAt(db, events[..n], i, env);
      assert events[..n][..i] == events[..i];
    }
  }

  /** Over every run without a failed stale UPDATE, all that a client is told follows from what it sent and was told
      before: every statement is answered as on the catalog that its own log gives when it is executed from the
      start. */
  lemma AnswerLaw(db: Db, events: seq<Event>, i: nat, env: Env)
    requires CatalogSound(db.catalog, env) && db.transaction.None? && i < |events|
    requires forall k :: 0 <= k < |events| ==> !StaleFailure(db, events, k, env)
    ensures var outcomes := Outcomes(db, events, env);
            Expected(db.catalog, db.path, LogOf(events[..i], outcomes[..i]), events[i].statement, events[i].ok,
                     outcomes[i], env)
  {
    hide Step, CatalogSound, StaleFailure, LogOf, Expected, Tracks;
    forall k | 0 <= k < i ensures !StaleFailure(db, events[..i], k, env) { StaleFailurePrefix(db, events, i, k, env); }
    ReplayLaw(db, events[..i], env);
    OutcomesPrefix(db, events, i, env);
    OutcomeAt(db, events, i, env);
    RunPath(db, events[..i], env);
    var before := Run(db, events[..i], env);
    StepExpected(before, LogOf(events[..i], Outcomes(db, events[..i], env)), db.catalog, events[i].statement,
                 events[i].ok, env);
  }
}
