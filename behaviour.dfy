/** What each `PostgresManager` operation does, as a function of the engine,
    whether the manager holds a connection, and the calls made so far: the
    value it returns or the exception it raises, and the calls it adds to the
    log. The class in `manager.dfy` is proved to behave exactly so. */
module Behaviour {
  import opened Results
  import opened Text
  import opened Db
  import opened Statements
  import opened Batching
  import Readers

  /** The result set of a reply, if it returned one. */
  function ResultsOf(reply: Reply): Option<seq<Row>> {
    if reply.Accepted? then reply.results else None
  }

  /** `cursor.rowcount` after a reply (`-1` when it raised). */
  function RowCountOf(reply: Reply): int {
    if reply.Accepted? then reply.rowcount else -1
  }

  /** Calls made after the first `n`. */
  function Added(log: seq<Event>, n: nat): seq<Event>
    requires n <= |log|
  {
    log[n..]
  }

  // ---------------------------------------------------------------------------
  // connect / disconnect
  // ---------------------------------------------------------------------------

  /** `connect`: ask the driver for a connection; its exception propagates. */
  function ConnectOutcome(engine: Engine, log: seq<Event>): (r: Outcome<bool>)
    ensures r.log == log + [Connect]
    ensures r.result.Success? <==> engine(log, Connect).Accepted?
    ensures r.result.Success? ==> r.result.value
    ensures r.result.Failure? ==> r.result.error == Failed(engine(log, Connect).exc)
  {
    match engine(log, Connect)
    case Raised(e) => Outcome(Failure(Failed(e)), log + [Connect])
    case Accepted(_, _) => Outcome(Success(true), log + [Connect])
  }

  /** `disconnect`: close the connection if there is one. Without one it
      returns `None`, modelled as `false`. The connection object is kept
      either way. */
  function DisconnectOutcome(engine: Engine, connected: bool, log: seq<Event>): (r: Outcome<bool>)
    ensures !connected ==> r == Outcome(Success(false), log)
    ensures connected ==> r.log == log + [Close]
    ensures connected ==> (r.result.Success? <==> engine(log, Close).Accepted?)
    ensures r.result.Success? ==> r.result.value == connected
    ensures connected && engine(log, Close).Raised? ==> r.result == Failure(Failed(engine(log, Close).exc))
  {
    if !connected then Outcome(Success(false), log)
    else match engine(log, Close)
      case Raised(e) => Outcome(Failure(Failed(e)), log + [Close])
      case Accepted(_, _) => Outcome(Success(true), log + [Close])
  }

  // ---------------------------------------------------------------------------
  // _execute_query
  // ---------------------------------------------------------------------------

  /** What `_execute_query` hands back: nothing, every row (`fetch`), or the
      first row if any (`fetch_one`). */
  datatype Fetched = Nothing | All(rows: seq<Row>) | One(row: Option<Row>)

  /** The `except Error` branch of `_execute_query`, reached with a
      connection: a driver error triggers a rollback and is re-raised (an
      error raised by the rollback itself replaces it); any other exception is
      not caught and propagates without a rollback. */
  function Recover<T>(engine: Engine, log: seq<Event>, e: Exception): (r: Outcome<T>)
    ensures r.result.Failure?
    ensures e.DatabaseError? ==> r.log == log + [Rollback]
    ensures e.OtherError? ==> r == Outcome(Failure(Failed(e)), log)
    ensures e.DatabaseError? && engine(log, Rollback).Accepted? ==> r.result.error == Failed(e)
    ensures e.DatabaseError? && engine(log, Rollback).Raised? ==> r.result.error == Failed(engine(log, Rollback).exc)
  {
    if e.DatabaseError? then
      match engine(log, Rollback)
      case Raised(e2) => Outcome(Failure(Failed(e2)), log + [Rollback])
      case Accepted(_, _) => Outcome(Failure(Failed(e)), log + [Rollback])
    else Outcome(Failure(Failed(e)), log)
  }

  /** The commit `_execute_query` performs when asked to and not fetching. */
  predicate CommitsAfter(fetch: bool, fetchOne: bool, commit: bool) {
    !fetch && !fetchOne && commit
  }

  /** `cursor.fetchone()` on a fresh result set. */
  function First(rows: seq<Row>): (r: Option<Row>)
    ensures r.None? <==> rows == []
    ensures r.Some? ==> r.value == rows[0]
  {
    if rows != [] then Some(rows[0]) else None
  }

  /** When `_execute_query` succeeds on a connection: the driver accepts the
      statement, hands back a result set if one is to be fetched, and accepts
      the commit if one follows. */
  predicate GoesThrough(engine: Engine, log: seq<Event>, call: Event, fetch: bool, fetchOne: bool,
                        commit: bool) {
    && engine(log, call).Accepted?
    && ((fetch || fetchOne) ==> ResultsOf(engine(log, call)).Some?)
    && (CommitsAfter(fetch, fetchOne, commit) ==> engine(log + [call], Commit).Accepted?)
  }

  /** `_execute_query`. Without a connection it raises before touching the
      driver. Otherwise it executes the statement; `fetch` returns every row
      and takes precedence over `fetch_one`, which returns the first; only on
      the path that fetches nothing does it commit, and only if `commit`
      asks. Failures roll back (see `Recover`), so a rollback is the last call
      made, and only made when the operation fails. */
  function RunQuery(engine: Engine, connected: bool, log: seq<Event>, sql: string,
                    params: Option<seq<Value>>, fetch: bool, fetchOne: bool, commit: bool)
    : (r: Outcome<Fetched>)
    ensures !connected ==> r == Outcome(Failure(Failed(NotConnected)), log)
    ensures connected ==> |r.log| > |log| && r.log[..|log| + 1] == log + [Execute(sql, params)]
    ensures r.result.Success? ==>
              r.log == log + [Execute(sql, params)] + (if CommitsAfter(fetch, fetchOne, commit) then [Commit] else [])
    ensures r.result.Success? && fetch ==>
              r.result.value.All? && ResultsOf(engine(log, Execute(sql, params))) == Some(r.result.value.rows)
    ensures r.result.Success? && !fetch && fetchOne ==>
              r.result.value.One? && ResultsOf(engine(log, Execute(sql, params))).Some?
              && r.result.value.row == First(ResultsOf(engine(log, Execute(sql, params))).value)
    ensures r.result.Success? && !fetch && !fetchOne ==> r.result.value.Nothing?
    ensures connected ==>
              (r.result.Success? <==> GoesThrough(engine, log, Execute(sql, params), fetch, fetchOne, commit))
    ensures connected && engine(log, Execute(sql, params)).Raised? ==>
              r == Recover(engine, log + [Execute(sql, params)], engine(log, Execute(sql, params)).exc)
    ensures connected && engine(log, Execute(sql, params)).Accepted? && (fetch || fetchOne)
            && ResultsOf(engine(log, Execute(sql, params))).None? ==>
              r == Recover(engine, log + [Execute(sql, params)], NoResults)
    ensures connected && engine(log, Execute(sql, params)).Accepted? && CommitsAfter(fetch, fetchOne, commit)
            && engine(log + [Execute(sql, params)], Commit).Raised? ==>
              r == Recover(engine, log + [Execute(sql, params), Commit],
                           engine(log + [Execute(sql, params)], Commit).exc)
  {
    if !connected then Outcome(Failure(Failed(NotConnected)), log)
    else
      var call := Execute(sql, params);
      var log1 := log + [call];
      match engine(log, call)
      case Raised(e) => Recover(engine, log1, e)
      case Accepted(results, _) =>
        if fetch then
          if results.Some? then Outcome(Success(All(results.value)), log1)
          else Recover(engine, log1, NoResults)
        else if fetchOne then
          if results.Some? then
            Outcome(Success(One(First(results.value))), log1)
          else Recover(engine, log1, NoResults)
        else if commit then
          match engine(log1, Commit)
          case Raised(e) => Recover(engine, log + [call, Commit], e)
          case Accepted(_, _) => Outcome(Success(Nothing), log1 + [Commit])
        else Outcome(Success(Nothing), log1)
  }

  /** The calls `_execute_query` adds after the statement: a commit only when
      it was asked to commit and fetches nothing; a rollback only when it
      fails, and then as its last call; and every failure with a connection
      rolls back, except an exception that is not a driver error. */
  lemma RunQueryCalls(engine: Engine, connected: bool, log: seq<Event>, sql: string,
                      params: Option<seq<Value>>, fetch: bool, fetchOne: bool, commit: bool)
    ensures var r := RunQuery(engine, connected, log, sql, params, fetch, fetchOne, commit);
            |r.log| >= |log| && (Commit in Added(r.log, |log|) ==> CommitsAfter(fetch, fetchOne, commit))
    ensures var r := RunQuery(engine, connected, log, sql, params, fetch, fetchOne, commit);
            |r.log| >= |log| && (Rollback in Added(r.log, |log|) ==>
              r.result.Failure? && r.log[|r.log| - 1] == Rollback)
    ensures var r := RunQuery(engine, connected, log, sql, params, fetch, fetchOne, commit);
            connected && r.result.Failure? ==>
              Rollback in Added(r.log, |log|) || (r.result.error.Failed? && r.result.error.exc.OtherError?)
  {
    var r := RunQuery(engine, connected, log, sql, params, fetch, fetchOne, commit);
    if connected {
      var call := Execute(sql, params);
      var log1 := log + [call];
      var added := Added(r.log, |log|);
      if engine(log, call).Raised? {
        var e := engine(log, call).exc;
        if e.DatabaseError? {
          assert added == [call, Rollback];
        } else {
          assert added == [call];
        }
      } else if fetch || fetchOne {
        if ResultsOf(engine(log, call)).Some? {
          assert added == [call];
        } else {
          assert added == [call, Rollback];
        }
      } else if commit {
        var c := engine(log1, Commit);
        if c.Accepted? {
          assert added == [call, Commit];
        } else if c.exc.DatabaseError? {
          assert added == [call, Commit, Rollback];
        } else {
          assert added == [call, Commit];
        }
      } else {
        assert added == [call];
      }
    }
  }

  // ---------------------------------------------------------------------------
  // Statements run through _execute_query
  // ---------------------------------------------------------------------------

  /** Forget what `_execute_query` fetched, keeping its failure. */
  function Done<T>(q: Outcome<Fetched>, value: T): (r: Outcome<T>)
    ensures r.log == q.log
    ensures r.result.Success? <==> q.result.Success?
    ensures r.result.Success? ==> r.result.value == value
    ensures r.result.Failure? ==> r.result.error == q.result.error
  {
    match q.result
    case Failure(e) => Outcome(Failure(e), q.log)
    case Success(_) => Outcome(Success(value), q.log)
  }

  /** How a statement run through `_execute_query` with a commit and no
      fetch ends, on a connection: an exception from the statement or from the
      commit is rolled back and re-raised (see `Recover`); when both go
      through, the operation returns `value` after exactly those two calls. */
  ghost predicate RanCommitted<T>(engine: Engine, log: seq<Event>, call: Event, value: T, r: Outcome<T>) {
    var exec := engine(log, call);
    var done := engine(log + [call], Commit);
    && (exec.Raised? ==> r == Recover(engine, log + [call], exec.exc))
    && (exec.Accepted? && done.Raised? ==> r == Recover(engine, log + [call, Commit], done.exc))
    && (exec.Accepted? && done.Accepted? ==> r == Outcome(Success(value), log + [call, Commit]))
  }

  /** How a statement run through `_execute_query` with a fetch fails, on a
      connection: an exception from the statement, or a statement that
      produced no result set, is rolled back and re-raised; otherwise the
      statement is the only call made. */
  ghost predicate RanFetching<T>(engine: Engine, log: seq<Event>, call: Event, r: Outcome<T>) {
    var exec := engine(log, call);
    && (exec.Raised? ==> r == Recover(engine, log + [call], exec.exc))
    && (exec.Accepted? && exec.results.None? ==> r == Recover(engine, log + [call], NoResults))
    && (exec.Accepted? && exec.results.Some? ==> r.log == log + [call])
  }

  /** `create_table`: run the CREATE TABLE statement with a commit; `True`
      when it went through. */
  function CreateTableOutcome(engine: Engine, connected: bool, log: seq<Event>, table: string,
                              columns: Dict<string>, pk: Option<string>, ifNotExists: bool)
    : (r: Outcome<bool>)
    ensures r.result.Success? ==>
              r.result.value && r.log == log + [Execute(CreateTableSql(table, columns, pk, ifNotExists), None), Commit]
    ensures !connected ==> r == Outcome(Failure(Failed(NotConnected)), log)
    ensures connected ==> RanCommitted(engine, log, Execute(CreateTableSql(table, columns, pk, ifNotExists), None), true, r)
  {
    Done(RunQuery(engine, connected, log, CreateTableSql(table, columns, pk, ifNotExists), None, false, false, true), true)
  }

  /** `drop_table`: the same for DROP TABLE. */
  function DropTableOutcome(engine: Engine, connected: bool, log: seq<Event>, table: string,
                            ifExists: bool)
    : (r: Outcome<bool>)
    ensures r.result.Success? ==>
              r.result.value && r.log == log + [Execute(DropTableSql(table, ifExists), None), Commit]
    ensures !connected ==> r == Outcome(Failure(Failed(NotConnected)), log)
    ensures connected ==> RanCommitted(engine, log, Execute(DropTableSql(table, ifExists), None), true, r)
  {
    Done(RunQuery(engine, connected, log, DropTableSql(table, ifExists), None, false, false, true), true)
  }

  /** The id `insert` reports: the first column of the returned row, when an
      id was asked for and a non-empty row came back. */
  function ReturnedId(returnId: bool, f: Fetched): Option<Value> {
    if returnId && f.One? && f.row.Some? && f.row.value != [] then Some(f.row.value[0]) else None
  }

  /** `result[0]` for the row `fetchone()` takes from `rows`, or `None` when
      there is no row or it is empty. */
  function IdOf(rows: seq<Row>): Option<Value> {
    if rows != [] && rows[0] != [] then Some(rows[0][0]) else None
  }

  /** `insert` as written: one INSERT with the record's values; with
      `return_id` it asks `_execute_query` for one row, and that path never
      commits. */
  function InsertOutcome(engine: Engine, connected: bool, log: seq<Event>, table: string,
                         data: Dict<Value>, returnId: bool)
    : (r: Outcome<Option<Value>>)
    ensures !connected ==> r == Outcome(Failure(Failed(NotConnected)), log)
    ensures r.result.Success? && !returnId ==>
              r.result.value.None?
              && r.log == log + [Execute(InsertSql(table, Keys(data), false), Some(InsertParams(data))), Commit]
    ensures connected && !returnId ==>
              RanCommitted(engine, log, Execute(InsertSql(table, Keys(data), false), Some(InsertParams(data))), None, r)
    ensures connected && returnId ==>
              RanFetching(engine, log, Execute(InsertSql(table, Keys(data), true), Some(InsertParams(data))), r)
    ensures connected && returnId ==>
              var rows := ResultsOf(engine(log, Execute(InsertSql(table, Keys(data), true), Some(InsertParams(data)))));
              rows.Some? ==> r.result == Success(IdOf(rows.value))
  {
    var q := RunQuery(engine, connected, log, InsertSql(table, Keys(data), returnId),
                      Some(InsertParams(data)), false, returnId, true);
    match q.result
    case Failure(e) => Outcome(Failure(e), q.log)
    case Success(f) => Outcome(Success(ReturnedId(returnId, f)), q.log)
  }

  /** `insert(..., return_id=True)` never commits: whatever happens, no
      commit follows the INSERT, so the new row is only kept if a later
      operation on the same connection commits. */
  lemma InsertReturningNeverCommits(engine: Engine, connected: bool, log: seq<Event>, table: string,
                                    data: Dict<Value>)
    ensures var r := InsertOutcome(engine, connected, log, table, data, true);
            |r.log| >= |log| && Commit !in Added(r.log, |log|)
  {
    RunQueryCalls(engine, connected, log, InsertSql(table, Keys(data), true),
                  Some(InsertParams(data)), false, true, true);
    assert !CommitsAfter(false, true, true);
  }

  /** `insert` as intended: after the INSERT ... RETURNING id has produced its
      row, commit as on the path without an id. */
  function InsertCommittedOutcome(engine: Engine, connected: bool, log: seq<Event>, table: string,
                                  data: Dict<Value>, returnId: bool)
    : (r: Outcome<Option<Value>>)
    ensures !connected ==> r == Outcome(Failure(Failed(NotConnected)), log)
    ensures connected ==>
              var call := Execute(InsertSql(table, Keys(data), returnId), Some(InsertParams(data)));
              (r.result.Success? <==> engine(log, call).Accepted? && (returnId ==> ResultsOf(engine(log, call)).Some?)
                                      && engine(log + [call], Commit).Accepted?)
  {
    var q := InsertOutcome(engine, connected, log, table, data, returnId);
    if !returnId || q.result.Failure? then q
    else match engine(q.log, Commit)
      case Raised(e) => Recover(engine, q.log + [Commit], e)
      case Accepted(_, _) => Outcome(q.result, q.log + [Commit])
  }

  /** Intended behaviour: a successful insert always ends with a commit right
      after its INSERT, with or without `return_id`, and reports the returned
      id exactly when one was asked for and came back. */
  lemma InsertCommittedPersists(engine: Engine, connected: bool, log: seq<Event>, table: string,
                                data: Dict<Value>, returnId: bool)
    ensures var r := InsertCommittedOutcome(engine, connected, log, table, data, returnId);
            r.result.Success? ==>
              r.log == log + [Execute(InsertSql(table, Keys(data), returnId), Some(InsertParams(data))), Commit]
              && (r.result.value.Some? ==> returnId)
    ensures var r := InsertCommittedOutcome(engine, connected, log, table, data, returnId);
            var rows := ResultsOf(engine(log, Execute(InsertSql(table, Keys(data), true), Some(InsertParams(data)))));
            r.result.Success? && returnId ==> rows.Some? && r.result.value == IdOf(rows.value)
  {
    var q := RunQuery(engine, connected, log, InsertSql(table, Keys(data), returnId),
                      Some(InsertParams(data)), false, returnId, true);
    if returnId {
      assert !CommitsAfter(false, true, true);
    }
  }

  /** `update` and `delete`: execute on a fresh cursor and commit, with no
      connection check and no rollback, and return the row count. Without a
      connection, `None.cursor()` raises `AttributeError`. */
  function ExecuteAndCommit(engine: Engine, connected: bool, log: seq<Event>, sql: string,
                            params: Option<seq<Value>>)
    : (r: Outcome<int>)
    ensures !connected ==> r == Outcome(Failure(NoConnectionObject), log)
    ensures |r.log| >= |log| && Rollback !in Added(r.log, |log|)
    ensures connected ==> r.log == log + [Execute(sql, params)] ||
                          r.log == log + [Execute(sql, params), Commit]
    ensures r.result.Success? ==>
              r.log == log + [Execute(sql, params), Commit]
              && r.result.value == RowCountOf(engine(log, Execute(sql, params)))
    ensures connected ==>
              var exec := engine(log, Execute(sql, params));
              var done := engine(log + [Execute(sql, params)], Commit);
              && (r.result.Success? <==> exec.Accepted? && done.Accepted?)
              && (exec.Raised? ==> r.result == Failure(Failed(exec.exc)))
              && (exec.Accepted? && done.Raised? ==> r.result == Failure(Failed(done.exc)))
  {
    if !connected then Outcome(Failure(NoConnectionObject), log)
    else
      var call := Execute(sql, params);
      match engine(log, call)
      case Raised(e) => Outcome(Failure(Failed(e)), log + [call])
      case Accepted(_, rowcount) =>
        match engine(log + [call], Commit)
        case Raised(e) => Outcome(Failure(Failed(e)), log + [call, Commit])
        case Accepted(_, _) => Outcome(Success(rowcount), log + [call, Commit])
  }

  /** `update`: the UPDATE statement with the new values, then the WHERE
      parameters. */
  function UpdateOutcome(engine: Engine, connected: bool, log: seq<Event>, table: string,
                         data: Dict<Value>, where: string, whereParams: Option<seq<Value>>)
    : (r: Outcome<int>)
    ensures !connected ==> r == Outcome(Failure(NoConnectionObject), log)
    ensures connected ==>
              var call := Execute(UpdateSql(table, data, where), Some(UpdateParams(data, whereParams)));
              (r.result.Success? <==> engine(log, call).Accepted? && engine(log + [call], Commit).Accepted?)
    ensures r.result.Success? ==>
              var call := Execute(UpdateSql(table, data, where), Some(UpdateParams(data, whereParams)));
              r.log == log + [call, Commit] && r.result.value == RowCountOf(engine(log, call))
  {
    ExecuteAndCommit(engine, connected, log, UpdateSql(table, data, where),
                     Some(UpdateParams(data, whereParams)))
  }

  /** `delete`: the DELETE statement with `where_params` passed through as
      given (`None` included). */
  function DeleteOutcome(engine: Engine, connected: bool, log: seq<Event>, table: string,
                         where: string, whereParams: Option<seq<Value>>)
    : (r: Outcome<int>)
    ensures !connected ==> r == Outcome(Failure(NoConnectionObject), log)
    ensures connected ==>
              var call := Execute(DeleteSql(table, where), whereParams);
              (r.result.Success? <==> engine(log, call).Accepted? && engine(log + [call], Commit).Accepted?)
    ensures r.result.Success? ==>
              var call := Execute(DeleteSql(table, where), whereParams);
              r.log == log + [call, Commit] && r.result.value == RowCountOf(engine(log, call))
  {
    ExecuteAndCommit(engine, connected, log, DeleteSql(table, where), whereParams)
  }

  /** `query` (without `return_df`): every row of the result, without a
      commit. */
  function QueryOutcome(engine: Engine, connected: bool, log: seq<Event>, sql: string,
                        params: Option<seq<Value>>)
    : (r: Outcome<seq<Row>>)
    ensures !connected ==> r == Outcome(Failure(Failed(NotConnected)), log)
    ensures r.result.Success? ==>
              r.log == log + [Execute(sql, params)]
              && ResultsOf(engine(log, Execute(sql, params))) == Some(r.result.value)
    ensures |r.log| >= |log| && Commit !in Added(r.log, |log|)
    ensures connected ==> RanFetching(engine, log, Execute(sql, params), r)
    ensures connected && ResultsOf(engine(log, Execute(sql, params))).Some? ==> r.result.Success?
  {
    RunQueryCalls(engine, connected, log, sql, params, true, false, false);
    var q := RunQuery(engine, connected, log, sql, params, true, false, false);
    match q.result
    case Failure(e) => Outcome(Failure(e), q.log)
    case Success(f) => Outcome(Success(f.rows), q.log)
  }

  /** `table_exists`: the first column of the catalogue query's single row,
      or `False` when no row (or an empty one) came back. */
  function TableExistsOutcome(engine: Engine, connected: bool, log: seq<Event>, table: string)
    : (r: Outcome<Value>)
    ensures !connected ==> r == Outcome(Failure(Failed(NotConnected)), log)
    ensures r.result.Success? ==> r.log == log + [Execute(TableExistsSql, Some([Text(table)]))]
    ensures r.result.Success? ==>
              var rows := ResultsOf(engine(log, Execute(TableExistsSql, Some([Text(table)]))));
              rows.Some? && r.result.value == if rows.value != [] && rows.value[0] != [] then rows.value[0][0] else Bool(false)
    ensures connected ==> RanFetching(engine, log, Execute(TableExistsSql, Some([Text(table)])), r)
    ensures connected && ResultsOf(engine(log, Execute(TableExistsSql, Some([Text(table)])))).Some? ==> r.result.Success?
  {
    var q := RunQuery(engine, connected, log, TableExistsSql, Some([Text(table)]), false, true, false);
    match q.result
    case Failure(e) => Outcome(Failure(e), q.log)
    case Success(f) =>
      Outcome(Success(if f.row.Some? && f.row.value != [] then f.row.value[0] else Bool(false)), q.log)
  }

  /** One entry of `get_table_columns`' answer. */
  datatype ColumnInfo = ColumnInfo(name: Value, typ: Value, nullable: bool)

  /** The comprehension of `get_table_columns`: name, type and `row[2] ==
      "YES"` for each row; a row shorter than three columns raises
      `IndexError`. */
  function ColumnsOf(rows: seq<Row>): (r: Result<seq<ColumnInfo>, Error>)
    ensures r.Success? <==> forall i :: 0 <= i < |rows| ==> |rows[i]| >= 3
    ensures r.Failure? ==> r.error == ShortRow
    ensures r.Success? ==> |r.value| == |rows| && forall i :: 0 <= i < |rows| ==>
              r.value[i] == ColumnInfo(rows[i][0], rows[i][1], rows[i][2] == Text("YES"))
  {
    if rows == [] then Success([])
    else if |rows[0]| < 3 then Failure(ShortRow)
    else match ColumnsOf(rows[1..])
      case Failure(e) => Failure(e)
      case Success(rest) =>
        assert forall i :: 1 <= i < |rows| ==> rows[i] == rows[1..][i - 1];
        Success([ColumnInfo(rows[0][0], rows[0][1], rows[0][2] == Text("YES"))] + rest)
  }

  /** `get_table_columns`: the catalogue query's rows, described. */
  function TableColumnsOutcome(engine: Engine, connected: bool, log: seq<Event>, table: string)
    : (r: Outcome<seq<ColumnInfo>>)
    ensures !connected ==> r == Outcome(Failure(Failed(NotConnected)), log)
    ensures r.result.Success? ==>
              r.log == log + [Execute(TableColumnsSql, Some([Text(table)]))]
              && var rows := ResultsOf(engine(log, Execute(TableColumnsSql, Some([Text(table)]))));
                 rows.Some? && ColumnsOf(rows.value) == Success(r.result.value)
    ensures connected ==> RanFetching(engine, log, Execute(TableColumnsSql, Some([Text(table)])), r)
    ensures connected ==>
              var call := Execute(TableColumnsSql, Some([Text(table)]));
              engine(log, call).Accepted? && ResultsOf(engine(log, call)).Some? ==>
                r == Outcome(ColumnsOf(ResultsOf(engine(log, call)).value), log + [call])
  {
    var q := RunQuery(engine, connected, log, TableColumnsSql, Some([Text(table)]), true, false, false);
    match q.result
    case Failure(e) => Outcome(Failure(e), q.log)
    case Success(f) =>
      match ColumnsOf(f.rows)
      case Failure(e) => Outcome(Failure(e), q.log)
      case Success(cs) => Outcome(Success(cs), q.log)
  }

  // ---------------------------------------------------------------------------
  // insert_batch
  // ---------------------------------------------------------------------------

  /** The columns of a chunk: the keys of its first record, in order. */
  function ChunkColumns(chunk: seq<Record>): seq<string>
    requires chunk != [] && chunk[0].Mapping?
  {
    Keys(chunk[0].fields)
  }

  /** Every record of the chunk can be projected onto the chunk's columns. */
  predicate Ready(chunk: seq<Record>) {
    chunk != [] && chunk[0].Mapping? && Project(chunk, ChunkColumns(chunk)).Success?
  }

  /** The calls a chunk that goes through makes: one `executemany` of the
      INSERT over the chunk's value tuples, then one commit. */
  function ChunkCalls(table: string, chunk: seq<Record>): seq<Event>
    requires Ready(chunk)
  {
    [ExecuteMany(InsertSql(table, ChunkColumns(chunk), false), Project(chunk, ChunkColumns(chunk)).value), Commit]
  }

  /** The calls of a run of chunks that all go through, in chunk order. */
  function BatchCalls(table: string, chunks: seq<seq<Record>>): seq<Event>
    requires forall k :: 0 <= k < |chunks| ==> Ready(chunks[k])
  {
    if chunks == [] then [] else ChunkCalls(table, chunks[0]) + BatchCalls(table, chunks[1..])
  }

  /** How a statement followed by a commit ends when nothing is rolled back:
      an exception from the statement or from the commit propagates as it
      is, after that call; when both go through, the operation returns
      `value` after exactly those two calls. */
  ghost predicate RanWithoutRollback<T>(engine: Engine, log: seq<Event>, call: Event, value: T, r: Outcome<T>) {
    var exec := engine(log, call);
    var done := engine(log + [call], Commit);
    && (exec.Raised? ==> r == Outcome(Failure(Failed(exec.exc)), log + [call]))
    && (exec.Accepted? && done.Raised? ==> r == Outcome(Failure(Failed(done.exc)), log + [call, Commit]))
    && (exec.Accepted? && done.Accepted? ==> r == Outcome(Success(value), log + [call, Commit]))
  }

  /** One pass of `insert_batch`'s loop body. The columns come from the first
      record (`.keys()` fails on anything but a dict) before the cursor is
      taken from the connection (`None.cursor()` fails without one); then
      the value tuples are built row by row, sent with one `executemany`, and
      committed. Nothing is rolled back. */
  function RunChunk(engine: Engine, connected: bool, log: seq<Event>, table: string,
                    chunk: seq<Record>)
    : (r: Outcome<nat>)
    requires chunk != []
    ensures chunk[0].NonMapping? ==> r == Outcome(Failure(NotAMapping), log)
    ensures chunk[0].Mapping? && !connected ==> r == Outcome(Failure(NoConnectionObject), log)
    ensures chunk[0].Mapping? && connected && !Ready(chunk) ==>
              r == Outcome(Failure(Project(chunk, ChunkColumns(chunk)).error), log)
    ensures connected && Ready(chunk) ==> RanWithoutRollback(engine, log, ChunkCalls(table, chunk)[0], |chunk|, r)
    ensures connected ==>
              (r.result.Success? <==> Ready(chunk) && engine(log, ChunkCalls(table, chunk)[0]).Accepted?
                                      && engine(log + [ChunkCalls(table, chunk)[0]], Commit).Accepted?)
  {
    if chunk[0].NonMapping? then Outcome(Failure(NotAMapping), log)
    else
      var columns := ChunkColumns(chunk);
      if !connected then Outcome(Failure(NoConnectionObject), log)
      else match Project(chunk, columns)
        case Failure(e) => Outcome(Failure(e), log)
        case Success(params) =>
          var call := ExecuteMany(InsertSql(table, columns, false), params);
          match engine(log, call)
          case Raised(e) => Outcome(Failure(Failed(e)), log + [call])
          case Accepted(_, _) =>
            match engine(log + [call], Commit)
            case Raised(e) => Outcome(Failure(Failed(e)), log + [call, Commit])
            case Accepted(_, _) => Outcome(Success(|chunk|), log + [call, Commit])
  }

  /** A chunk that goes through was ready, counts its records, and made its
      `executemany` and its commit; one that fails made no call, or only the
      first one or both of them. */
  lemma RunChunkCalls(engine: Engine, connected: bool, log: seq<Event>, table: string,
                      chunk: seq<Record>)
    requires chunk != []
    ensures var r := RunChunk(engine, connected, log, table, chunk);
            r.result.Success? ==>
              Ready(chunk) && r.result.value == |chunk| && r.log == log + ChunkCalls(table, chunk)
    ensures var r := RunChunk(engine, connected, log, table, chunk);
            r.result.Failure? ==>
              r.log == log || (Ready(chunk) && exists n :: 1 <= n <= 2 && r.log == log + ChunkCalls(table, chunk)[..n])
  {
    if chunk[0].Mapping? && connected && Ready(chunk) {
      var columns := ChunkColumns(chunk);
      var call := ExecuteMany(InsertSql(table, columns, false), Project(chunk, columns).value);
      assert ChunkCalls(table, chunk) == [call, Commit];
      assert log + [call] == log + ChunkCalls(table, chunk)[..1];
      assert log + [call, Commit] == log + ChunkCalls(table, chunk)[..2];
    }
  }

  /** The loop of `insert_batch` over a list of chunks, adding each chunk's
      size to `total`; the first failing chunk ends it. */
  function RunChunks(engine: Engine, connected: bool, log: seq<Event>, table: string,
                     chunks: seq<seq<Record>>, total: nat)
    : (r: Outcome<nat>)
    requires NonEmptyChunks(chunks)
    ensures chunks == [] ==> r == Outcome(Success(total), log)
    ensures r.result.Success? ==> r.result.value >= total
    decreases |chunks|
  {
    if chunks == [] then Outcome(Success(total), log)
    else
      var step := RunChunk(engine, connected, log, table, chunks[0]);
      match step.result
      case Failure(_) => step
      case Success(n) => RunChunks(engine, connected, step.log, table, chunks[1..], total + n)
  }

  /** `batch_size`, or `MAX_BATCH_SIZE` when it is `None`. */
  function BatchSize(batchSize: Option<int>, maxBatch: int): int {
    if batchSize.None? then maxBatch else batchSize.value
  }

  /** `insert_batch`. An empty list returns 0 before anything else; a batch
      size of 0 makes `range` raise `ValueError`; a negative one makes the
      loop empty, so 0 is returned with no call made. */
  function InsertBatchOutcome(engine: Engine, connected: bool, log: seq<Event>, table: string,
                              rows: seq<Record>, batchSize: Option<int>, maxBatch: int)
    : (r: Outcome<nat>)
    ensures rows == [] ==> r == Outcome(Success(0), log)
    ensures rows != [] && BatchSize(batchSize, maxBatch) == 0 ==> r == Outcome(Failure(ZeroBatchSize), log)
    ensures rows != [] && BatchSize(batchSize, maxBatch) < 0 ==> r == Outcome(Success(0), log)
  {
    if rows == [] then Outcome(Success(0), log)
    else
      var size := BatchSize(batchSize, maxBatch);
      if size == 0 then Outcome(Failure(ZeroBatchSize), log)
      else if size < 0 then Outcome(Success(0), log)
      else
        ChunksSizes(rows, size);
        RunChunks(engine, connected, log, table, Chunks(rows, size), 0)
  }

  /** The first pass of the loop decides how the run goes on: it ends the run
      when it fails, and otherwise the rest of the chunks run after it. */
  lemma RunChunksCons(engine: Engine, connected: bool, log: seq<Event>, table: string,
                      chunks: seq<seq<Record>>, total: nat, step: Outcome<nat>)
    requires chunks != [] && NonEmptyChunks(chunks)
    requires step == RunChunk(engine, connected, log, table, chunks[0])
    ensures NonEmptyChunks(chunks[1..])
    ensures step.result.Failure? ==> RunChunks(engine, connected, log, table, chunks, total) == step
    ensures step.result.Success? ==>
              RunChunks(engine, connected, log, table, chunks, total)
              == RunChunks(engine, connected, step.log, table, chunks[1..], total + step.result.value)
  {
    assert forall k :: 0 <= k < |chunks[1..]| ==> chunks[1..][k] == chunks[k + 1];
  }

  /** A run of chunks that succeeds went through every chunk: each was ready,
      the count is the number of records, and the calls are each chunk's
      `executemany` and commit, in order. */
  lemma {:induction false} RunChunksSucceeds(engine: Engine, connected: bool, log: seq<Event>,
                                             table: string, chunks: seq<seq<Record>>, total: nat)
    requires NonEmptyChunks(chunks)
    requires RunChunks(engine, connected, log, table, chunks, total).result.Success?
    ensures forall k :: 0 <= k < |chunks| ==> Ready(chunks[k])
    ensures RunChunks(engine, connected, log, table, chunks, total).result.value == total + |Flatten(chunks)|
    ensures RunChunks(engine, connected, log, table, chunks, total).log == log + BatchCalls(table, chunks)
    decreases |chunks|
  {
    if chunks != [] {
      var step := RunChunk(engine, connected, log, table, chunks[0]);
      RunChunkCalls(engine, connected, log, table, chunks[0]);
      RunChunksSucceeds(engine, connected, step.log, table, chunks[1..], total + step.result.value);
      assert forall k :: 1 <= k < |chunks| ==> chunks[k] == chunks[1..][k - 1];
    }
  }

  /** The log `after` shows a run of `chunks` that started from `before` and
      stopped at chunk `k`: the chunks before it all went through (each
      committed), chunk `k` made at most its two calls, and nothing was rolled
      back. */
  ghost predicate StoppedAt(before: seq<Event>, after: seq<Event>, table: string,
                            chunks: seq<seq<Record>>, k: nat)
  {
    && k < |chunks|
    && (forall i :: 0 <= i < k ==> Ready(chunks[i]))
    && var done := before + BatchCalls(table, chunks[..k]);
       |done| <= |after| <= |done| + 2 && after[..|done|] == done
       && Rollback !in after[|before|..]
  }

  /** Stopping at chunk `k` after a first chunk that went through is stopping
      at chunk `k + 1` of the whole list. */
  lemma StoppedAtCons(before: seq<Event>, after: seq<Event>, table: string,
                      chunks: seq<seq<Record>>, k: nat)
    requires chunks != [] && Ready(chunks[0])
    requires StoppedAt(before + ChunkCalls(table, chunks[0]), after, table, chunks[1..], k)
    ensures StoppedAt(before, after, table, chunks, k + 1)
    ensures before + BatchCalls(table, chunks[..k + 1])
            == before + ChunkCalls(table, chunks[0]) + BatchCalls(table, chunks[1..][..k])
  {
    var first := ChunkCalls(table, chunks[0]);
    var rest := chunks[1..];
    var head := chunks[..k + 1];
    forall i | 0 <= i < k + 1 ensures Ready(chunks[i]) {
      if i > 0 { assert chunks[i] == rest[i - 1]; }
    }
    assert head[0] == chunks[0] && head[1..] == rest[..k];
    var tail := BatchCalls(table, rest[..k]);
    assert BatchCalls(table, head) == first + tail;
    assert before + (first + tail) == (before + first) + tail;
    assert Rollback !in first;
    assert after[|before|..] == first + after[|before + first|..];
  }

  /** The run `r` of `chunks` from `log` stopped at chunk `k`, and ended
      exactly as chunk `k` ends when run after the chunks before it: so its
      error and its last calls are chunk `k`'s (see `RunChunk`). */
  ghost predicate FailedAt(engine: Engine, connected: bool, log: seq<Event>, table: string,
                           chunks: seq<seq<Record>>, k: nat, r: Outcome<nat>)
  {
    && StoppedAt(log, r.log, table, chunks, k)
    && chunks[k] != []
    && r == RunChunk(engine, connected, log + BatchCalls(table, chunks[..k]), table, chunks[k])
  }

  /** A run of chunks that fails stopped at one of its chunks, with that
      chunk's own failure. */
  lemma {:induction false} RunChunksFails(engine: Engine, connected: bool, log: seq<Event>,
                                          table: string, chunks: seq<seq<Record>>, total: nat)
    requires NonEmptyChunks(chunks)
    requires RunChunks(engine, connected, log, table, chunks, total).result.Failure?
    ensures exists k: nat :: FailedAt(engine, connected, log, table, chunks, k,
                                      RunChunks(engine, connected, log, table, chunks, total))
    decreases |chunks|
  {
    var r := RunChunks(engine, connected, log, table, chunks, total);
    var step := RunChunk(engine, connected, log, table, chunks[0]);
    RunChunksCons(engine, connected, log, table, chunks, total, step);
    if step.result.Failure? {
      FailedAtFirst(engine, connected, log, table, chunks);
    } else {
      RunChunkCalls(engine, connected, log, table, chunks[0]);
      RunChunksFails(engine, connected, step.log, table, chunks[1..], total + step.result.value);
      var k :| FailedAt(engine, connected, step.log, table, chunks[1..], k, r);
      FailedAtCons(engine, connected, log, table, chunks, k, r);
    }
  }

  /** A first chunk that fails ends the run at chunk 0. */
  lemma FailedAtFirst(engine: Engine, connected: bool, log: seq<Event>, table: string,
                      chunks: seq<seq<Record>>)
    requires chunks != [] && chunks[0] != []
    requires RunChunk(engine, connected, log, table, chunks[0]).result.Failure?
    ensures FailedAt(engine, connected, log, table, chunks, 0, RunChunk(engine, connected, log, table, chunks[0]))
  {
    var r := RunChunk(engine, connected, log, table, chunks[0]);
    RunChunkCalls(engine, connected, log, table, chunks[0]);
    assert chunks[..0] == [];
    if r.log != log {
      var n :| 1 <= n <= 2 && r.log == log + ChunkCalls(table, chunks[0])[..n];
      assert r.log[|log|..] == ChunkCalls(table, chunks[0])[..n];
    }
    assert StoppedAt(log, r.log, table, chunks, 0);
    assert log + BatchCalls(table, chunks[..0]) == log;
  }

  /** Failing at chunk `k` after a first chunk that went through is failing
      at chunk `k + 1` of the whole list. */
  lemma FailedAtCons(engine: Engine, connected: bool, log: seq<Event>, table: string,
                     chunks: seq<seq<Record>>, k: nat, r: Outcome<nat>)
    requires chunks != [] && Ready(chunks[0])
    requires FailedAt(engine, connected, log + ChunkCalls(table, chunks[0]), table, chunks[1..], k, r)
    ensures FailedAt(engine, connected, log, table, chunks, k + 1, r)
  {
    StoppedAtCons(log, r.log, table, chunks, k);
    assert chunks[1..][k] == chunks[k + 1];
  }

  /** An engine that accepts every call. */
  ghost predicate AlwaysAccepts(engine: Engine) {
    forall l: seq<Event>, e: Event :: engine(l, e).Accepted?
  }

  /** With a connection, an engine that accepts everything and chunks that
      are all ready, a run of chunks succeeds. */
  lemma {:induction false} RunChunksAccepted(engine: Engine, log: seq<Event>, table: string,
                                             chunks: seq<seq<Record>>, total: nat)
    requires AlwaysAccepts(engine)
    requires forall k :: 0 <= k < |chunks| ==> chunks[k] != [] && Ready(chunks[k])
    ensures RunChunks(engine, true, log, table, chunks, total).result.Success?
    decreases |chunks|
  {
    if chunks != [] {
      var columns := ChunkColumns(chunks[0]);
      var call := ExecuteMany(InsertSql(table, columns, false), Project(chunks[0], columns).value);
      assert engine(log, call).Accepted? && engine(log + [call], Commit).Accepted?;
      var step := RunChunk(engine, true, log, table, chunks[0]);
      RunChunksAccepted(engine, step.log, table, chunks[1..], total + step.result.value);
    }
  }

  /** `insert_batch` that succeeds with a positive batch size has inserted
      every record, chunk by chunk: one `executemany` and one commit per
      slice `rows[i : i + size]`, in order. */
  lemma InsertBatchSucceeds(engine: Engine, connected: bool, log: seq<Event>, table: string,
                            rows: seq<Record>, batchSize: Option<int>, maxBatch: int)
    requires rows != [] && BatchSize(batchSize, maxBatch) > 0
    requires InsertBatchOutcome(engine, connected, log, table, rows, batchSize, maxBatch).result.Success?
    ensures var size := BatchSize(batchSize, maxBatch);
            var r := InsertBatchOutcome(engine, connected, log, table, rows, batchSize, maxBatch);
            (forall k :: 0 <= k < |Chunks(rows, size)| ==> Ready(Chunks(rows, size)[k]))
            && r.result.value == |rows|
            && r.log == log + BatchCalls(table, Chunks(rows, size))
  {
    var size := BatchSize(batchSize, maxBatch);
    ChunksSizes(rows, size);
    ChunksFlatten(rows, size);
    RunChunksSucceeds(engine, connected, log, table, Chunks(rows, size), 0);
  }

  /** `insert_batch` that fails part-way leaves the chunks before the failing
      one committed and does not roll back. */
  lemma InsertBatchFails(engine: Engine, connected: bool, log: seq<Event>, table: string,
                         rows: seq<Record>, batchSize: Option<int>, maxBatch: int)
    requires rows != [] && BatchSize(batchSize, maxBatch) > 0
    requires InsertBatchOutcome(engine, connected, log, table, rows, batchSize, maxBatch).result.Failure?
    ensures exists k: nat :: FailedAt(engine, connected, log, table, Chunks(rows, BatchSize(batchSize, maxBatch)), k,
                                      InsertBatchOutcome(engine, connected, log, table, rows, batchSize, maxBatch))
  {
    var size := BatchSize(batchSize, maxBatch);
    ChunksSizes(rows, size);
    var r := RunChunks(engine, connected, log, table, Chunks(rows, size), 0);
    assert InsertBatchOutcome(engine, connected, log, table, rows, batchSize, maxBatch) == r;
    RunChunksFails(engine, connected, log, table, Chunks(rows, size), 0);
    var k :| FailedAt(engine, connected, log, table, Chunks(rows, size), k, r);
    assert FailedAt(engine, connected, log, table, Chunks(rows, BatchSize(batchSize, maxBatch)), k,
                    InsertBatchOutcome(engine, connected, log, table, rows, batchSize, maxBatch));
  }

  /** With a connection and an engine that accepts everything, `insert_batch`
      with a positive batch size inserts all records, provided every record
      of each chunk has the keys of the chunk's first record. */
  lemma InsertBatchAccepted(engine: Engine, log: seq<Event>, table: string,
                            rows: seq<Record>, batchSize: Option<int>, maxBatch: int)
    requires AlwaysAccepts(engine) && BatchSize(batchSize, maxBatch) > 0
    requires forall k :: 0 <= k < |Chunks(rows, BatchSize(batchSize, maxBatch))| ==>
               Ready(Chunks(rows, BatchSize(batchSize, maxBatch))[k])
    ensures InsertBatchOutcome(engine, true, log, table, rows, batchSize, maxBatch).result == Success(|rows|)
  {
    var size := BatchSize(batchSize, maxBatch);
    if rows != [] {
      ChunksSizes(rows, size);
      RunChunksAccepted(engine, log, table, Chunks(rows, size), 0);
      InsertBatchSucceeds(engine, true, log, table, rows, batchSize, maxBatch);
    }
  }

  // ---------------------------------------------------------------------------
  // insert_from_json
  // ---------------------------------------------------------------------------

  /** What `json.load` produced: an object, an array, or any other value. */
  datatype Json = JObject(fields: Dict<Value>) | JArray(items: seq<Record>) | JOther

  /** `insert_from_json` on the loaded document: an object is inserted as a
      one-record list, an array as it is, anything else is refused with
      `ValueError`. */
  function InsertFromJsonOutcome(engine: Engine, connected: bool, log: seq<Event>, table: string,
                                 data: Json, batchSize: Option<int>, maxBatch: int)
    : (r: Outcome<nat>)
    ensures data.JOther? ==> r == Outcome(Failure(NotListOrDict), log)
    ensures data.JObject? ==>
              r == InsertBatchOutcome(engine, connected, log, table, [Mapping(data.fields)], batchSize, maxBatch)
    ensures data.JArray? ==> r == InsertBatchOutcome(engine, connected, log, table, data.items, batchSize, maxBatch)
  {
    match data
    case JObject(fields) => InsertBatchOutcome(engine, connected, log, table, [Mapping(fields)], batchSize, maxBatch)
    case JArray(items) => InsertBatchOutcome(engine, connected, log, table, items, batchSize, maxBatch)
    case JOther => Outcome(Failure(NotListOrDict), log)
  }

  /** A single object is a ready chunk whose value tuple is its values. */
  lemma SingleRecordReady(fields: Dict<Value>)
    ensures Ready([Mapping(fields)])
    ensures Project([Mapping(fields)], Keys(fields)) == Success([Values(fields)])
  {
    var rows := [Mapping(fields)];
    forall j | 0 <= j < |fields| ensures Get(fields, Keys(fields)[j]) == Some(Values(fields)[j]) {
      GetAt(fields, j);
    }
    var vs := RowValues(rows[0], Keys(fields));
    RowValuesSucceeds(rows[0], Keys(fields));
    RowValuesSpec(rows[0], Keys(fields));
    assert vs.Success?;
    assert forall j :: 0 <= j < |fields| ==> vs.value[j] == Values(fields)[j];
    assert vs.value == Values(fields);
    assert Project(rows[1..], Keys(fields)) == Success([]);
    assert Project(rows, Keys(fields)) == Success([vs.value] + []);
    assert [vs.value] + [] == [Values(fields)];
    assert Project(rows, Keys(fields)) == Success([Values(fields)]);
    assert rows == [Mapping(fields)];
  }

  /** A single JSON object is inserted as one row: one `executemany` with the
      object's values in key order, then a commit. */
  lemma InsertFromJsonObject(engine: Engine, log: seq<Event>, table: string, fields: Dict<Value>,
                             batchSize: Option<int>, maxBatch: int)
    requires AlwaysAccepts(engine) && BatchSize(batchSize, maxBatch) > 0
    ensures var r := InsertFromJsonOutcome(engine, true, log, table, JObject(fields), batchSize, maxBatch);
            r.result == Success(1)
            && r.log == log + [ExecuteMany(InsertSql(table, Keys(fields), false), [Values(fields)]), Commit]
  {
    var size := BatchSize(batchSize, maxBatch);
    var rows := [Mapping(fields)];
    assert rows[..1] == rows && rows[1..] == [];
    assert Chunks(rows, size) == [rows];
    SingleRecordReady(fields);
    RunChunksAccepted(engine, log, table, [rows], 0);
    RunChunksSucceeds(engine, true, log, table, [rows], 0);
    assert Flatten([rows]) == rows;
    assert BatchCalls(table, [rows]) == ChunkCalls(table, rows);
  }

  // ---------------------------------------------------------------------------
  // execute_from_sql_file
  // ---------------------------------------------------------------------------

  /** `statement.upper().startswith("SELECT")`. Besides the ASCII letters,
      U+017F (long s) upper-cases to `S`, and U+1E97 (t with diaeresis)
      upper-cases to `T` followed by a combining mark; no other character's
      upper case begins with one of the letters S, E, L, C, T. */
  predicate IsSelect(s: string) {
    && |s| >= 6
    && (s[0] == 's' || s[0] == 'S' || s[0] == 'ſ')
    && (s[1] == 'e' || s[1] == 'E') && (s[2] == 'l' || s[2] == 'L')
    && (s[3] == 'e' || s[3] == 'E') && (s[4] == 'c' || s[4] == 'C')
    && (s[5] == 't' || s[5] == 'T' || s[5] == 'ẗ')
  }

  /** The calls a script's statements make when they all go through: each
      is executed, and each that is not a SELECT is committed. */
  function ScriptCalls(stmts: seq<string>): seq<Event> {
    if stmts == [] then []
    else [Execute(stmts[0], None)] + (if IsSelect(stmts[0]) then [] else [Commit]) + ScriptCalls(stmts[1..])
  }

  /** One statement of the script: a SELECT is run with `fetch` and no
      commit, any other statement with a commit. */
  function Step(engine: Engine, connected: bool, log: seq<Event>, stmt: string): (r: Outcome<Fetched>)
    ensures r.result.Success? ==> r.log == log + ScriptCalls([stmt])
    ensures r.result.Success? && IsSelect(stmt) ==>
              r.result.value.All? && ResultsOf(engine(log, Execute(stmt, None))) == Some(r.result.value.rows)
    ensures connected ==>
              (r.result.Success? <==> GoesThrough(engine, log, Execute(stmt, None), IsSelect(stmt), false, !IsSelect(stmt)))
    ensures connected && IsSelect(stmt) ==> RanFetching(engine, log, Execute(stmt, None), r)
    ensures connected && !IsSelect(stmt) ==> RanCommitted(engine, log, Execute(stmt, None), Nothing, r)
  {
    var select := IsSelect(stmt);
    assert ScriptCalls([stmt]) == [Execute(stmt, None)] + (if select then [] else [Commit]) + ScriptCalls([]);
    RunQuery(engine, connected, log, stmt, None, select, false, !select)
  }

  /** The loop of `execute_from_sql_file`: the rows of each SELECT become the
      result so far (`last`); the first failure ends the run. */
  function ScriptOutcome(engine: Engine, connected: bool, log: seq<Event>, stmts: seq<string>,
                         last: seq<Row>)
    : (r: Outcome<seq<Row>>)
    ensures stmts == [] ==> r == Outcome(Success(last), log)
    ensures stmts != [] && !connected ==> r == Outcome(Failure(Failed(NotConnected)), log)
    decreases |stmts|
  {
    if stmts == [] then Outcome(Success(last), log)
    else
      var q := Step(engine, connected, log, stmts[0]);
      match q.result
      case Failure(e) => Outcome(Failure(e), q.log)
      case Success(f) =>
        ScriptOutcome(engine, connected, q.log, stmts[1..], if IsSelect(stmts[0]) then f.rows else last)
  }

  /** The first statement decides how the script goes on: its failure ends
      the run, and otherwise the remaining statements run after it. */
  lemma ScriptOutcomeCons(engine: Engine, connected: bool, log: seq<Event>, stmts: seq<string>,
                          last: seq<Row>, step: Outcome<Fetched>)
    requires stmts != [] && step == Step(engine, connected, log, stmts[0])
    ensures step.result.Failure? ==>
              ScriptOutcome(engine, connected, log, stmts, last) == Outcome(Failure(step.result.error), step.log)
    ensures step.result.Success? && IsSelect(stmts[0]) ==>
              step.result.value.All? &&
              ScriptOutcome(engine, connected, log, stmts, last)
              == ScriptOutcome(engine, connected, step.log, stmts[1..], step.result.value.rows)
    ensures step.result.Success? && !IsSelect(stmts[0]) ==>
              ScriptOutcome(engine, connected, log, stmts, last)
              == ScriptOutcome(engine, connected, step.log, stmts[1..], last)
  {
  }

  /** `execute_from_sql_file` on a file whose text is `content`: run the
      statements `SQLReader.read` splits it into; return the rows of the last
      SELECT, or `[]` when there is none. A file with no statement succeeds
      even without a connection. */
  function ExecuteSqlFileOutcome(engine: Engine, connected: bool, log: seq<Event>, content: string)
    : (r: Outcome<seq<Row>>)
    ensures Readers.SplitStatements(content) == [] ==> r == Outcome(Success([]), log)
    ensures Readers.SplitStatements(content) != [] && !connected ==>
              r == Outcome(Failure(Failed(NotConnected)), log)
  {
    ScriptOutcome(engine, connected, log, Readers.SplitStatements(content), [])
  }

  /** The index of the last SELECT, if there is one. */
  function LastSelect(stmts: seq<string>): (r: Option<nat>)
    ensures r.None? <==> forall i :: 0 <= i < |stmts| ==> !IsSelect(stmts[i])
    ensures r.Some? ==> r.value < |stmts| && IsSelect(stmts[r.value])
                        && forall i :: r.value < i < |stmts| ==> !IsSelect(stmts[i])
  {
    if stmts == [] then None
    else if IsSelect(stmts[|stmts| - 1]) then Some(|stmts| - 1)
    else LastSelect(stmts[..|stmts| - 1])
  }

  /** A SELECT with none after it is the last one. */
  lemma LastSelectUnique(stmts: seq<string>, k: nat)
    requires k < |stmts| && IsSelect(stmts[k])
    requires forall i :: k < i < |stmts| ==> !IsSelect(stmts[i])
    ensures LastSelect(stmts) == Some(k)
  {
    var r := LastSelect(stmts);
    assert r.Some?;
  }

  /** The last SELECT of `s + rest` is that of `rest`, shifted, or else `s`
      itself if it is one. */
  lemma LastSelectCons(stmts: seq<string>)
    requires stmts != []
    ensures LastSelect(stmts[1..]).Some? ==> LastSelect(stmts) == Some(LastSelect(stmts[1..]).value + 1)
    ensures LastSelect(stmts[1..]).None? ==>
              LastSelect(stmts) == (if IsSelect(stmts[0]) then Some(0) else None)
  {
    var rest := stmts[1..];
    if LastSelect(rest).Some? {
      var j := LastSelect(rest).value;
      assert stmts[j + 1] == rest[j];
      forall i | j + 1 < i < |stmts| ensures !IsSelect(stmts[i]) {
        assert stmts[i] == rest[i - 1];
      }
      LastSelectUnique(stmts, j + 1);
    } else if IsSelect(stmts[0]) {
      forall i | 0 < i < |stmts| ensures !IsSelect(stmts[i]) {
        assert stmts[i] == rest[i - 1];
      }
      LastSelectUnique(stmts, 0);
    } else {
      forall i | 0 <= i < |stmts| ensures !IsSelect(stmts[i]) {
        if i > 0 { assert stmts[i] == rest[i - 1]; }
      }
    }
  }

  /** The calls of the first `j + 1` statements: the first one's, then
      those of the next `j`. */
  lemma ScriptCallsCons(stmts: seq<string>, j: nat)
    requires j < |stmts|
    ensures ScriptCalls(stmts[..j + 1]) == ScriptCalls([stmts[0]]) + ScriptCalls(stmts[1..][..j])
  {
    assert stmts[..j + 1][1..] == stmts[1..][..j];
    assert [stmts[0]][1..] == [];
  }

  /** Concatenation is associative. */
  lemma Associate<T>(a: seq<T>, b: seq<T>, c: seq<T>)
    ensures a + (b + c) == (a + b) + c
  {
  }

  /** A script that goes through made exactly its statements' calls. */
  lemma {:induction false} ScriptLog(engine: Engine, connected: bool, log: seq<Event>,
                                     stmts: seq<string>, last: seq<Row>)
    requires ScriptOutcome(engine, connected, log, stmts, last).result.Success?
    ensures ScriptOutcome(engine, connected, log, stmts, last).log == log + ScriptCalls(stmts)
    decreases |stmts|
  {
    if stmts != [] {
      var q := Step(engine, connected, log, stmts[0]);
      var next := if IsSelect(stmts[0]) then q.result.value.rows else last;
      ScriptLog(engine, connected, q.log, stmts[1..], next);
      ScriptCallsCons(stmts, |stmts| - 1);
      assert stmts[..|stmts|] == stmts && stmts[1..][..|stmts| - 1] == stmts[1..];
    }
  }

  /** A script that goes through returns the rows the engine gave its last
      SELECT, at the point of the log where that SELECT ran; with no SELECT it
      returns `last`. */
  lemma {:induction false} ScriptRows(engine: Engine, connected: bool, log: seq<Event>,
                                      stmts: seq<string>, last: seq<Row>)
    requires ScriptOutcome(engine, connected, log, stmts, last).result.Success?
    ensures LastSelect(stmts).None? ==> ScriptOutcome(engine, connected, log, stmts, last).result.value == last
    ensures LastSelect(stmts).Some? ==>
              Some(ScriptOutcome(engine, connected, log, stmts, last).result.value)
              == ResultsOf(engine(log + ScriptCalls(stmts[..LastSelect(stmts).value]),
                                  Execute(stmts[LastSelect(stmts).value], None)))
    decreases |stmts|
  {
    if stmts != [] {
      var q := Step(engine, connected, log, stmts[0]);
      var next := if IsSelect(stmts[0]) then q.result.value.rows else last;
      var rest := stmts[1..];
      assert q.result.Success?;
      var r := ScriptOutcome(engine, connected, q.log, rest, next);
      assert ScriptOutcome(engine, connected, log, stmts, last) == r;
      ScriptRows(engine, connected, q.log, rest, next);
      LastSelectCons(stmts);
      if LastSelect(rest).Some? {
        var j := LastSelect(rest).value;
        ScriptCallsCons(stmts, j);
        assert q.log == log + ScriptCalls([stmts[0]]);
        Associate(log, ScriptCalls([stmts[0]]), ScriptCalls(rest[..j]));
        assert stmts[j + 1] == rest[j];
        assert LastSelect(stmts) == Some(j + 1);
        assert Some(r.result.value) == ResultsOf(engine(q.log + ScriptCalls(rest[..j]), Execute(rest[j], None)));
      } else if IsSelect(stmts[0]) {
        assert r.result.value == q.result.value.rows;
        assert LastSelect(stmts) == Some(0);
        assert log + ScriptCalls(stmts[..0]) == log by {
          assert stmts[..0] == [];
        }
      } else {
        assert LastSelect(stmts).None?;
      }
    }
  }

  /** A script that fails stopped at some statement `k`: every statement
      before it went through, statement `k` failed, and no later statement was
      sent to the driver. */
  lemma {:induction false} ScriptFails(engine: Engine, connected: bool, log: seq<Event>,
                                       stmts: seq<string>, last: seq<Row>)
    requires ScriptOutcome(engine, connected, log, stmts, last).result.Failure?
    ensures exists k: nat :: k < |stmts|
              && Step(engine, connected, log + ScriptCalls(stmts[..k]), stmts[k]).result.Failure?
              && ScriptOutcome(engine, connected, log, stmts, last).result.error
                 == Step(engine, connected, log + ScriptCalls(stmts[..k]), stmts[k]).result.error
              && ScriptOutcome(engine, connected, log, stmts, last).log
                 == Step(engine, connected, log + ScriptCalls(stmts[..k]), stmts[k]).log
    decreases |stmts|
  {
    var q := Step(engine, connected, log, stmts[0]);
    var rest := stmts[1..];
    if q.result.Failure? {
      assert log + ScriptCalls(stmts[..0]) == log by {
        assert stmts[..0] == [];
      }
      assert ScriptOutcome(engine, connected, log, stmts, last) == Outcome(Failure(q.result.error), q.log);
    } else {
      var next := if IsSelect(stmts[0]) then q.result.value.rows else last;
      assert ScriptOutcome(engine, connected, log, stmts, last) == ScriptOutcome(engine, connected, q.log, rest, next);
      ScriptFails(engine, connected, q.log, rest, next);
      var j: nat :| j < |rest|
              && Step(engine, connected, q.log + ScriptCalls(rest[..j]), rest[j]).result.Failure?
              && ScriptOutcome(engine, connected, q.log, rest, next).result.error
                 == Step(engine, connected, q.log + ScriptCalls(rest[..j]), rest[j]).result.error
              && ScriptOutcome(engine, connected, q.log, rest, next).log
                 == Step(engine, connected, q.log + ScriptCalls(rest[..j]), rest[j]).log;
      ScriptCallsCons(stmts, j);
      Associate(log, ScriptCalls([stmts[0]]), ScriptCalls(rest[..j]));
      assert log + ScriptCalls(stmts[..j + 1]) == q.log + ScriptCalls(rest[..j]);
      assert stmts[j + 1] == rest[j];
    }
  }
}
