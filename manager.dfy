/** The `PostgresManager` object: its connection state and the calls it makes
    on the driver, step by step. Each method is proved to do exactly what the
    matching function of `Behaviour` describes, so every property proved there
    holds of the object. */
module Manager {
  import opened Results
  import opened Db
  import opened Statements
  import opened Batching
  import opened Behaviour
  import Readers

  class PostgresManager {
    /** The database behind `psycopg2.connect(**config)`. */
    const engine: Engine
    /** `MAX_BATCH_SIZE` of the configuration. */
    const maxBatchSize: int
    /** Whether `self.connection` holds a connection object. */
    var connected: bool
    /** Every call made on the driver so far, oldest first. */
    var log: seq<Event>

    /** `__init__`: no connection yet. */
    constructor (engine: Engine, maxBatchSize: int)
      ensures this.engine == engine && this.maxBatchSize == maxBatchSize
      ensures !connected && log == []
    {
      this.engine := engine;
      this.maxBatchSize := maxBatchSize;
      connected := false;
      log := [];
    }

    /** Make one driver call: the engine answers it given the calls before. */
    method Send(ev: Event) returns (reply: Reply)
      modifies this
      ensures connected == old(connected)
      ensures log == old(log) + [ev] && reply == engine(old(log), ev)
    {
      reply := engine(log, ev);
      log := log + [ev];
    }

    /** `connect`: on success the object holds a connection; a failed attempt
        leaves `self.connection` as it was. */
    method Connect() returns (r: Result<bool, Error>)
      modifies this
      ensures connected == (old(connected) || r.Success?)
      ensures Outcome(r, log) == ConnectOutcome(engine, old(log))
    {
      var reply := Send(Event.Connect);
      if reply.Raised? {
        r := Failure(Failed(reply.exc));
      } else {
        connected := true;
        r := Success(true);
      }
    }

    /** `disconnect`: closes the connection but keeps the closed object. */
    method Disconnect() returns (r: Result<bool, Error>)
      modifies this
      ensures connected == old(connected)
      ensures Outcome(r, log) == DisconnectOutcome(engine, old(connected), old(log))
    {
      if !connected {
        return Success(false);
      }
      var reply := Send(Close);
      if reply.Raised? {
        r := Failure(Failed(reply.exc));
      } else {
        r := Success(true);
      }
    }

    /** The `except Error` clause of `_execute_query`. */
    method Recovering<T>(e: Exception) returns (r: Result<T, Error>)
      modifies this
      ensures connected == old(connected)
      ensures Outcome(r, log) == Behaviour.Recover(engine, old(log), e)
    {
      if e.OtherError? {
        return Failure(Failed(e));
      }
      var reply := Send(Rollback);
      if reply.Raised? {
        r := Failure(Failed(reply.exc));
      } else {
        r := Failure(Failed(e));
      }
    }

    /** `_execute_query`. */
    method ExecuteQuery(sql: string, params: Option<seq<Value>>, fetch: bool, fetchOne: bool,
                        commit: bool)
      returns (r: Result<Fetched, Error>)
      modifies this
      ensures connected == old(connected)
      ensures Outcome(r, log) == RunQuery(engine, old(connected), old(log), sql, params, fetch, fetchOne, commit)
    {
      if !connected {
        return Failure(Failed(NotConnected));
      }
      var reply := Send(Execute(sql, params));
      if reply.Raised? {
        r := Recovering(reply.exc);
      } else if fetch {
        if reply.results.Some? {
          r := Success(All(reply.results.value));
        } else {
          r := Recovering(NoResults);
        }
      } else if fetchOne {
        if reply.results.Some? {
          r := Success(One(First(reply.results.value)));
        } else {
          r := Recovering(NoResults);
        }
      } else if commit {
        var done := Send(Commit);
        assert log == old(log) + [Execute(sql, params), Commit];
        if done.Raised? {
          r := Recovering(done.exc);
        } else {
          r := Success(Nothing);
        }
      } else {
        r := Success(Nothing);
      }
    }

    /** `create_table`: the column definitions are built one by one, in the
        mapping's order. */
    method CreateTable(table: string, columns: Dict<string>, pk: Option<string>, ifNotExists: bool)
      returns (r: Result<bool, Error>)
      modifies this
      ensures connected == old(connected)
      ensures Outcome(r, log) == CreateTableOutcome(engine, old(connected), old(log), table, columns, pk, ifNotExists)
    {
      var defs: seq<string> := [];
      var i := 0;
      while i < |columns|
        invariant 0 <= i <= |columns| && |defs| == i
        invariant forall j :: 0 <= j < i ==>
                    defs[j] == ColumnDef(columns[j].0, columns[j].1, IsPrimaryKey(pk, columns[j].0))
      {
        var (name, typ) := columns[i];
        var def := name + " " + typ;
        if pk.Some? && pk.value != "" && name == pk.value {
          def := def + " PRIMARY KEY";
        }
        defs := defs + [def];
        i := i + 1;
      }
      assert defs == ColumnDefs(columns, pk);
      var q := ExecuteQuery(CreateTableSql(table, columns, pk, ifNotExists), None, false, false, true);
      if q.Failure? {
        return Failure(q.error);
      }
      r := Success(true);
    }

    /** `drop_table`. */
    method DropTable(table: string, ifExists: bool) returns (r: Result<bool, Error>)
      modifies this
      ensures connected == old(connected)
      ensures Outcome(r, log) == DropTableOutcome(engine, old(connected), old(log), table, ifExists)
    {
      var q := ExecuteQuery(DropTableSql(table, ifExists), None, false, false, true);
      if q.Failure? {
        return Failure(q.error);
      }
      r := Success(true);
    }

    /** `insert` as written: with `return_id` the row is fetched and nothing
        is committed (see `InsertReturningNeverCommits`). */
    method Insert(table: string, data: Dict<Value>, returnId: bool) returns (r: Result<Option<Value>, Error>)
      modifies this
      ensures connected == old(connected)
      ensures Outcome(r, log) == InsertOutcome(engine, old(connected), old(log), table, data, returnId)
    {
      var q := ExecuteQuery(InsertSql(table, Keys(data), returnId), Some(InsertParams(data)), false, returnId, true);
      if q.Failure? {
        return Failure(q.error);
      }
      r := Success(ReturnedId(returnId, q.value));
    }

    /** `insert` as intended: `Insert`, then the commit after `RETURNING id`
        that the method as written leaves out (see `InsertCommittedPersists`). */
    method InsertCommitted(table: string, data: Dict<Value>, returnId: bool) returns (r: Result<Option<Value>, Error>)
      modifies this
      ensures connected == old(connected)
      ensures Outcome(r, log) == InsertCommittedOutcome(engine, old(connected), old(log), table, data, returnId)
    {
      r := Insert(table, data, returnId);
      if returnId && r.Success? {
        var done := Send(Commit);
        if done.Raised? {
          r := Recovering(done.exc);
        }
      }
    }

    /** The body shared by `update` and `delete`: a cursor, one `execute`, a
        commit, and the cursor's row count. */
    method ExecuteCommitted(sql: string, params: Option<seq<Value>>) returns (r: Result<int, Error>)
      modifies this
      ensures connected == old(connected)
      ensures Outcome(r, log) == ExecuteAndCommit(engine, old(connected), old(log), sql, params)
    {
      if !connected {
        return Failure(NoConnectionObject);
      }
      var reply := Send(Execute(sql, params));
      if reply.Raised? {
        return Failure(Failed(reply.exc));
      }
      var done := Send(Commit);
      if done.Raised? {
        return Failure(Failed(done.exc));
      }
      r := Success(reply.rowcount);
    }

    /** `update`. */
    method Update(table: string, data: Dict<Value>, where: string, whereParams: Option<seq<Value>>)
      returns (r: Result<int, Error>)
      modifies this
      ensures connected == old(connected)
      ensures Outcome(r, log) == UpdateOutcome(engine, old(connected), old(log), table, data, where, whereParams)
    {
      r := ExecuteCommitted(UpdateSql(table, data, where), Some(UpdateParams(data, whereParams)));
    }

    /** `delete`. */
    method Delete(table: string, where: string, whereParams: Option<seq<Value>>)
      returns (r: Result<int, Error>)
      modifies this
      ensures connected == old(connected)
      ensures Outcome(r, log) == DeleteOutcome(engine, old(connected), old(log), table, where, whereParams)
    {
      r := ExecuteCommitted(DeleteSql(table, where), whereParams);
    }

    /** `query` without `return_df`. */
    method Query(sql: string, params: Option<seq<Value>>) returns (r: Result<seq<Row>, Error>)
      modifies this
      ensures connected == old(connected)
      ensures Outcome(r, log) == QueryOutcome(engine, old(connected), old(log), sql, params)
    {
      var q := ExecuteQuery(sql, params, true, false, false);
      if q.Failure? {
        return Failure(q.error);
      }
      r := Success(q.value.rows);
    }

    /** `table_exists`. */
    method TableExists(table: string) returns (r: Result<Value, Error>)
      modifies this
      ensures connected == old(connected)
      ensures Outcome(r, log) == TableExistsOutcome(engine, old(connected), old(log), table)
    {
      var q := ExecuteQuery(TableExistsSql, Some([Text(table)]), false, true, false);
      if q.Failure? {
        return Failure(q.error);
      }
      var row := q.value.row;
      r := Success(if row.Some? && row.value != [] then row.value[0] else Bool(false));
    }

    /** `get_table_columns`. */
    method GetTableColumns(table: string) returns (r: Result<seq<ColumnInfo>, Error>)
      modifies this
      ensures connected == old(connected)
      ensures Outcome(r, log) == TableColumnsOutcome(engine, old(connected), old(log), table)
    {
      var q := ExecuteQuery(TableColumnsSql, Some([Text(table)]), true, false, false);
      if q.Failure? {
        return Failure(q.error);
      }
      var described := ColumnsOf(q.value.rows);
      if described.Failure? {
        return Failure(described.error);
      }
      r := Success(described.value);
    }

    /** One pass of `insert_batch`'s loop: columns from the first record, a
        cursor, the value tuples, one `executemany` and one commit. */
    method InsertChunk(table: string, batch: seq<Record>, ghost todo: seq<seq<Record>>, ghost total: nat)
      returns (r: Result<nat, Error>)
      requires todo != [] && todo[0] == batch && NonEmptyChunks(todo)
      modifies this
      ensures connected == old(connected)
      ensures Outcome(r, log) == RunChunk(engine, old(connected), old(log), table, batch)
      ensures NonEmptyChunks(todo[1..])
      ensures r.Failure? ==> RunChunks(engine, connected, old(log), table, todo, total) == Outcome(r, log)
      ensures r.Success? ==> RunChunks(engine, connected, old(log), table, todo, total)
                             == RunChunks(engine, connected, log, table, todo[1..], total + r.value)
    {
      RunChunksCons(engine, connected, log, table, todo, total, RunChunk(engine, connected, log, table, batch));
      if batch[0].NonMapping? {
        return Failure(NotAMapping);
      }
      var columns := Keys(batch[0].fields);
      if !connected {
        return Failure(NoConnectionObject);
      }
      var values := Project(batch, columns);
      if values.Failure? {
        return Failure(values.error);
      }
      var reply := Send(ExecuteMany(InsertSql(table, columns, false), values.value));
      if reply.Raised? {
        return Failure(Failed(reply.exc));
      }
      var done := Send(Commit);
      if done.Raised? {
        return Failure(Failed(done.exc));
      }
      r := Success(|batch|);
    }

    /** The loop of `insert_batch` over the offsets `0, size, 2 * size, ...`:
        one chunk per pass, adding up the records inserted, until the first
        failure. */
    method InsertChunks(table: string, rows: seq<Record>, size: nat) returns (r: Result<nat, Error>)
      requires rows != [] && size > 0
      modifies this
      ensures connected == old(connected)
      ensures Outcome(r, log) == InsertBatchOutcome(engine, old(connected), old(log), table, rows, Some(size), maxBatchSize)
    {
      ChunksSizes(rows, size);
      assert rows[0..] == rows;
      var total: nat := 0;
      var i := 0;
      ghost var todo := Chunks(rows, size);
      ghost var goal := RunChunks(engine, connected, log, table, todo, total);
      assert goal == InsertBatchOutcome(engine, connected, log, table, rows, Some(size), maxBatchSize);
      while i < |rows|
        invariant 0 <= i <= |rows|
        invariant connected == old(connected)
        invariant todo == Chunks(rows[i..], size)
        invariant NonEmptyChunks(todo)
        invariant goal == RunChunks(engine, connected, log, table, todo, total)
        decreases |rows| - i
      {
        var next := Min(i + size, |rows|);
        var batch := rows[i..next];
        ChunksStep(rows, size, i, next);
        var n := InsertChunk(table, batch, todo, total);
        if n.Failure? {
          return Failure(n.error);
        }
        total := total + n.value;
        i := next;
        todo := todo[1..];
      }
      assert rows[i..] == [];
      r := Success(total);
    }

    /** `insert_batch`. */
    method InsertBatch(table: string, rows: seq<Record>, batchSize: Option<int>) returns (r: Result<nat, Error>)
      modifies this
      ensures connected == old(connected)
      ensures Outcome(r, log) == InsertBatchOutcome(engine, old(connected), old(log), table, rows, batchSize, maxBatchSize)
    {
      if rows == [] {
        return Success(0);
      }
      var size := BatchSize(batchSize, maxBatchSize);
      if size == 0 {
        return Failure(ZeroBatchSize);
      }
      if size < 0 {
        return Success(0);
      }
      r := InsertChunks(table, rows, size);
    }

    /** `execute_from_sql_file` on a file whose text is `content`. */
    method ExecuteFromSqlFile(content: string) returns (r: Result<seq<Row>, Error>)
      modifies this
      ensures connected == old(connected)
      ensures Outcome(r, log) == ExecuteSqlFileOutcome(engine, old(connected), old(log), content)
    {
      var statements := Readers.SplitStatements(content);
      var results: seq<Row> := [];
      var k := 0;
      ghost var goal := ScriptOutcome(engine, connected, log, statements, results);
      while k < |statements|
        invariant 0 <= k <= |statements|
        invariant connected == old(connected)
        invariant goal == ScriptOutcome(engine, connected, log, statements[k..], results)
      {
        var statement := statements[k];
        ghost var before := log;
        assert statements[k..][1..] == statements[k + 1..];
        if IsSelect(statement) {
          var q := ExecuteQuery(statement, None, true, false, false);
          ScriptOutcomeCons(engine, connected, before, statements[k..], results, Outcome(q, log));
          if q.Failure? {
            return Failure(q.error);
          }
          results := q.value.rows;
        } else {
          var q := ExecuteQuery(statement, None, false, false, true);
          ScriptOutcomeCons(engine, connected, before, statements[k..], results, Outcome(q, log));
          if q.Failure? {
            return Failure(q.error);
          }
        }
        k := k + 1;
      }
      r := Success(results);
    }

    /** `insert_from_json` on the document `json.load` produced. */
    method InsertFromJson(table: string, data: Json, batchSize: Option<int>) returns (r: Result<nat, Error>)
      modifies this
      ensures connected == old(connected)
      ensures Outcome(r, log) == InsertFromJsonOutcome(engine, old(connected), old(log), table, data, batchSize, maxBatchSize)
    {
      match data
      case JObject(fields) =>
        r := InsertBatch(table, [Mapping(fields)], batchSize);
      case JArray(items) =>
        r := InsertBatch(table, items, batchSize);
      case JOther =>
        r := Failure(NotListOrDict);
    }
  }
}
