# pypostgres in Dafny

A model of the deterministic part of pypostgres, a thin wrapper around the
psycopg2 PostgreSQL driver, with proofs about it. The model covers:

- **The manager** (`PostgresManager`). It builds SQL texts and parameter tuples
  and calls the driver through `_execute_query`, a small state machine over
  connect, execute, fetch, commit and rollback. Its batch insert cuts a list
  of records into chunks and sends one `executemany` and one commit per chunk.
  Its SQL-file runner routes each statement by its `SELECT` prefix.
- **The readers**. The SQL reader splits a script into statements. The reader
  factory picks a reader from a file's extension.

The database and the driver are not modelled. An `Engine` is any function that
answers a driver call (connect, execute, executemany, commit, rollback, close)
given every call made before it. The manager's effect is the log of calls it
made. So each property below holds for every possible database behaviour.

Files (one module each):

| file | module | what it holds |
|---|---|---|
| `results.dfy` | `Results` | `Option` and `Result` |
| `text.dfy` | `Text` | `str.join`, `str.split`, `str.strip`, `str.rfind`, character counting |
| `db.dfy` | `Db` | values, insertion-ordered dicts, records, driver calls and replies, the engine, errors |
| `readers.dfy` | `Readers` | the statement splitter, the extension table, `get_reader`, `read_file` |
| `statements.dfy` | `Statements` | the SQL texts and parameter tuples of each operation |
| `batching.dfy` | `Batching` | projecting records onto columns, and chunking |
| `behaviour.dfy` | `Behaviour` | each operation as a function of (engine, connection, log), and the lemmas about it |
| `manager.dfy` | `Manager` | the class `PostgresManager`, whose methods are proved equal to those functions |

The class holds the state the Python object changes:
- a `connected` flag, meaning `self.connection` is not `None`;
- the log of driver calls.

Each method's postcondition says its result and its new log equal the matching
`Behaviour` function of the old state. So every lemma about those functions
holds of the object. The loops of `create_table`, `insert_batch` and
`execute_from_sql_file` are `while` loops with invariants, proved against
those functions.

Behaviour a reader may not expect, which the model follows as coded:
- The SQL splitter cuts at every `;`, including inside quoted literals and
  comments (`Readers.SplitStatementsQuoted`).
- Only `_execute_query` rolls back on error. `update`, `delete` and
  `insert_batch` never do (`Behaviour.ExecuteAndCommit`,
  `Behaviour.InsertBatchFails`).
- `disconnect` re-raises a failure to close, and without a connection it
  returns `None`, modelled as `false`. It never clears `self.connection`.
- Errors are re-raised as the driver's own exceptions, not wrapped: each
  operation's contract names the exception it ends with (`Behaviour.RanCommitted`,
  `Behaviour.RanFetching`, `Behaviour.RanWithoutRollback`, `Behaviour.ExecuteAndCommit`,
  `Behaviour.FailedAt`).

## Model

| member | source | states |
|---|---|---|
| Text.SplitOn | src/readers.py:94 | `s.split(";")` has one more piece than there are separators; no piece holds the separator; joining the pieces back with it gives `s` |
| Text.SplitOnConcat | src/readers.py:94 | a separator always ends a piece: splitting `a + sep + b` gives the pieces of `a`, then those of `b` |
| Text.SplitJoin | src/readers.py:94 | splitting the join of separator-free pieces gives the pieces back |
| Text.Strip | src/readers.py:93 | `strip()` is empty exactly for blank text, otherwise neither starts nor ends with whitespace, and adds no character |
| Text.StripSlice | src/readers.py:93 | `strip()` is the slice of the text between a blank prefix and a blank suffix |
| Readers.KeepStatementsTrimmed | src/readers.py:92-96 | every statement the comprehension keeps is non-empty and trimmed |
| Readers.KeepStatementsAvoid | src/readers.py:92-96 | a character in no piece is in no kept statement |
| Readers.KeepStatementsAppend | src/readers.py:92-96 | the comprehension keeps piece order: filtering a concatenation concatenates the filtered parts |
| Readers.SplitStatements | src/readers.py:88-98 | every statement is non-empty, trimmed and free of `;`; there are at most (number of `;`) + 1 |
| Readers.SplitStatementsAppend | src/readers.py:94 | the statements of `a;b` are those of `a` followed by those of `b`, whatever `a` and `b` contain |
| Readers.SplitStatementsSingle | src/readers.py:92-96 | text without `;` is one statement, its stripped self, or none when blank |
| Readers.SplitStatementsTerminated | src/readers.py:94-95 | a trailing `;` adds no statement |
| Readers.SplitStatementsTwo | src/readers.py:92-96 | two non-blank `;`-free pieces around one `;` give exactly their two stripped selves |
| Readers.SplitStatementsExample | tests/test_postgres_manager.py:79-85 | the test's script gives exactly `SELECT * FROM users` and `SELECT COUNT(*) FROM orders` |
| Readers.SplitStatementsQuoted | src/readers.py:94 | a `;` inside a quoted literal splits the literal in two |
| Readers.BaseName | src/readers.py:199 | `Path(p).name` holds no `/` and is never `.` |
| Readers.BaseNameLast | src/readers.py:199 | the name is a whole component of the path after which only slashes and `.` components follow; it is empty only when the path has no other component |
| Readers.GetReaderDotComponent | src/readers.py:199-208 | a trailing `.` component is dropped: `x.csv/.` gets the CSV reader |
| Readers.Suffix | src/readers.py:199 | the suffix is empty, or the tail of the name from its last dot, which is neither first nor last |
| Readers.GetReader | src/readers.py:185-208 | a reader exactly when the lower-cased suffix is in the table, the table's reader for it; otherwise `ValueError` naming that suffix |
| Readers.ReaderForCases | src/readers.py:176-183 | `.csv`, `.json`, `.sql`, `.pdf` select their readers, `.xlsx` and `.xls` the Excel reader, each iff; every other extension fails |
| Readers.ExtensionOfLower | src/readers.py:199 | lower-casing a path does not change its lower-cased suffix |
| Readers.GetReaderIgnoresCase | src/readers.py:199-200 | two paths equal up to letter case get the same reader or the same error |
| Readers.GetReaderCsvFile | tests/test_postgres_manager.py:87-93 | `test.csv` gets the CSV reader |
| Readers.GetReaderJsonFile | tests/test_postgres_manager.py:95-101 | `test.json` gets the JSON reader |
| Readers.GetReaderSqlFile | tests/test_postgres_manager.py:103-109 | `test.sql` gets the SQL reader |
| Readers.GetReaderTextFile | tests/test_postgres_manager.py:111-117 | `test.txt` is refused, naming `.txt` |
| Readers.TextUnsupported | src/readers.py:200-206 | `.txt` is not in the table |
| Readers.GetReaderUpperCase | src/readers.py:199 | `Report.XLSX` gets the Excel reader |
| Readers.GetReaderNoDot | src/readers.py:199-206 | a name without a dot has the empty suffix and is refused |
| Readers.GetReaderHiddenFile | src/readers.py:199-206 | `.csv` alone is a hidden file with no suffix, and is refused |
| Readers.GetReaderDottedDirectory | src/readers.py:199-206 | a dot in a directory name is not a suffix |
| Readers.ReadFile | src/readers.py:210-222 | `read_file` fails exactly when `get_reader` does, with its error; a `.sql` path yields the split statements of its text; other formats yield the chosen reader's result |
| Db.Keys | src/postgres_manager.py:237 | `list(d.keys())` lists the keys in insertion order |
| Db.Values | src/postgres_manager.py:238 | `list(d.values())` lists the values in insertion order |
| Db.Get | src/postgres_manager.py:305 | `row[col]` is absent exactly when `col` is not a key, and otherwise is an entry's value |
| Db.GetAt | src/postgres_manager.py:305 | in a dict the value of the `i`-th key is the `i`-th value |
| Statements.CreateTableSql | src/postgres_manager.py:180-183 | `CREATE TABLE `, then `IF NOT EXISTS` exactly when asked (a second space otherwise), and at the end the column definitions joined by `, ` in parentheses |
| Statements.CreateTableSqlShape | src/postgres_manager.py:181-183 | after the option come a space, the table name verbatim and a space, then the parenthesised list and nothing else, so the text has exactly that length |
| Statements.DropTableSql | src/postgres_manager.py:205-206 | `DROP TABLE `, then `IF EXISTS` exactly when asked and nothing in its place otherwise (the length says which), then a space and the table name at the end |
| Statements.InsertSql | src/postgres_manager.py:242 | `INSERT INTO ` followed by the table name verbatim |
| Statements.InsertSqlShape | src/postgres_manager.py:239-244 | after the table name: ` (`, the column names joined by `, `, `) VALUES (`, one `%s` per column joined by `, `, `)`, and ` RETURNING id` exactly when asked |
| Statements.InsertListsSplit | src/postgres_manager.py:237-242 | the column list in the text splits back on commas into the columns in order, and the marker list into one `%s` per column |
| Statements.UpdateSql | src/postgres_manager.py:357 | `UPDATE ` and the table name verbatim, ending with ` WHERE ` and the clause verbatim |
| Statements.UpdateSqlShape | src/postgres_manager.py:352-357 | between the table name and the WHERE clause: ` SET ` and the assignments joined by `, `, and nothing else |
| Statements.UpdateSetSplits | src/postgres_manager.py:352 | the SET clause splits back on commas into one `k = %s` per column, in the order of the values |
| Statements.DeleteSql | src/postgres_manager.py:393 | `DELETE FROM` and the table name verbatim, then ` WHERE ` and the clause verbatim, nothing else |
| Statements.ColumnDefs | src/postgres_manager.py:173-178 | one definition per column, in mapping order: name, space, type, ` PRIMARY KEY` when it is the key |
| Statements.PrimaryKeyMarked | src/postgres_manager.py:176-177 | the key marker goes to exactly the column named `primary_key`, and to none when it is `None`, empty or not a column |
| Statements.ColumnListSplits | src/postgres_manager.py:180 | the joined column list splits back on `,` into one definition per column, in order |
| Statements.PlaceholderCount | src/postgres_manager.py:239 | `", ".join(["%s"] * n)` holds exactly `n` markers |
| Statements.InsertParams | src/postgres_manager.py:238 | the parameters are the record's values in column order, one per column |
| Statements.InsertPlaceholders | src/postgres_manager.py:237-247 | the INSERT has exactly as many `%s` markers as parameters |
| Statements.InsertReturning | src/postgres_manager.py:243-244 | ` RETURNING id` ends the statement iff `return_id` |
| Statements.Assignments | src/postgres_manager.py:352 | one `k = %s` per key, in order |
| Statements.UpdateParams | src/postgres_manager.py:353-355 | the new values in column order, then `where_params` only when it is non-empty |
| Statements.AssignmentsCount | src/postgres_manager.py:352 | the SET clause holds one marker per column |
| Statements.UpdatePlaceholders | src/postgres_manager.py:352-360 | the UPDATE holds one marker per column plus those of the WHERE clause, and matches its parameters iff the WHERE clause matches `where_params` |
| Batching.RowValuesSucceeds | src/postgres_manager.py:305 | a record yields a tuple iff it is a dict holding every column |
| Batching.RowValuesSpec | src/postgres_manager.py:305 | the tuple holds the record's value for each column, in column order |
| Batching.RowValuesFails | src/postgres_manager.py:305 | a non-dict fails on its first subscript; a dict fails with `KeyError` for the first column it lacks |
| Batching.ProjectSpec | src/postgres_manager.py:305 | the chunk's tuples exist iff every record yields one, and are those tuples in record order |
| Batching.ProjectFails | src/postgres_manager.py:305 | a failing projection fails as the first record that yields no tuple |
| Batching.ChunksCount | src/postgres_manager.py:295-296 | there are ceil(N / B) chunks |
| Batching.ChunksSizes | src/postgres_manager.py:295-296 | every chunk is non-empty and at most B long; all but the last are exactly B long |
| Batching.ChunksFlatten | src/postgres_manager.py:295-296 | the chunks, concatenated in order, are the input |
| Batching.ChunkAt | src/postgres_manager.py:295-296 | chunk `k` is the slice `rows[k*B : k*B + B]` |
| Batching.ChunksStep | src/postgres_manager.py:295-296 | from offset `i` the first chunk is `rows[i : i + B]` and the rest are the chunks from the next offset |
| Batching.ChunksOfThousand | src/postgres_manager.py:295-296 | 2500 records in chunks of 1000 make chunks of 1000, 1000 and 500 |
| Behaviour.ConnectOutcome | src/postgres_manager.py:56-72 | `connect` makes one connect call and returns `True` iff the driver accepts; its error propagates |
| Behaviour.DisconnectOutcome | src/postgres_manager.py:74-88 | without a connection no call and `None`; with one, one close call, `True` iff it is accepted, and otherwise the close's own exception re-raised |
| Behaviour.Recover | src/postgres_manager.py:135-139 | a driver error is followed by a rollback and re-raised; if the rollback itself raises, its exception is what propagates; any other exception propagates without a rollback |
| Behaviour.First | src/postgres_manager.py:127 | `fetchone` is the first row, or `None` for no rows |
| Behaviour.RunQuery | src/postgres_manager.py:114-142 | no connection: `Error` and no call; otherwise execute first; it succeeds iff the driver accepts the execute, hands back a result set when one is fetched, and accepts the commit when one follows; on success the calls are the execute plus a commit iff not fetching and `commit`; `fetch` returns every row and wins over `fetch_one`, which returns the first; a raised execute or commit, or a missing result set, ends as `Recover` of that exception |
| Behaviour.RunQueryCalls | src/postgres_manager.py:129-139 | a commit only on the non-fetching path with `commit`; a rollback only on failure, as the last call; every failure with a connection rolls back unless it is not a driver error |
| Behaviour.CreateTableOutcome | src/postgres_manager.py:172-191 | without a connection `Error` and no call; an exception from the CREATE TABLE or its commit is rolled back and re-raised; when both are accepted, `True` after exactly those two calls |
| Behaviour.DropTableOutcome | src/postgres_manager.py:204-213 | the same for DROP TABLE: re-raises the statement's or the commit's exception after a rollback, otherwise `True` after exactly those two calls |
| Behaviour.InsertOutcome | src/postgres_manager.py:236-259 | as written: without `return_id`, the INSERT with the record's values plus a commit, returning `None`, each exception re-raised after a rollback; with `return_id`, the INSERT alone, returning `result[0]` of the first returned row or `None` when there is no row or it is empty, and a missing result set re-raised |
| Behaviour.InsertReturningNeverCommits | src/postgres_manager.py:243-248 | as written, with `return_id` no commit ever follows the INSERT |
| Behaviour.InsertCommittedOutcome | src/postgres_manager.py:246-255 | corrected: without a connection `Error` and no call; with one it succeeds iff the INSERT is accepted, returns a result set when an id is asked for, and its commit is accepted |
| Behaviour.InsertCommittedPersists | src/postgres_manager.py:246-255 | corrected: every successful insert ends with a commit right after its INSERT; an id is only returned when asked for, and then it is `result[0]` of the first returned row |
| Behaviour.ExecuteAndCommit | src/postgres_manager.py:359-370 | `update`/`delete`: no connection object: `AttributeError` and no call; never a rollback; success iff the execute and the commit are both accepted, then exactly those two calls, returning the row count; otherwise the execute's or the commit's own exception |
| Behaviour.UpdateOutcome | src/postgres_manager.py:351-370 | the UPDATE with the new values then the WHERE parameters: succeeds iff it and its commit are accepted, returning the row count |
| Behaviour.DeleteOutcome | src/postgres_manager.py:392-406 | the DELETE with `where_params` as given: succeeds iff it and its commit are accepted, returning the row count |
| Behaviour.QueryOutcome | src/postgres_manager.py:428-444 | on success the rows of the one execute; never a commit; succeeds whenever the driver hands back a result set, and re-raises the execute's exception or the missing result set after a rollback |
| Behaviour.TableExistsOutcome | src/postgres_manager.py:639-655 | the first column of the catalogue query's first row, or `False` when there is no row; succeeds whenever the driver hands back a result set, otherwise re-raises after a rollback |
| Behaviour.ColumnsOf | src/postgres_manager.py:681-688 | one entry per row iff every row has three columns: name, type, and `nullable` iff the third is `"YES"`; else `IndexError` |
| Behaviour.TableColumnsOutcome | src/postgres_manager.py:670-695 | when the catalogue query is accepted and hands back rows, the outcome is `ColumnsOf` those rows after that one execute: their descriptions, or `IndexError` for a short row, with no rollback; the execute's exception or a missing result set is re-raised after a rollback |
| Behaviour.RunChunk | src/postgres_manager.py:298-309 | `.keys()` of a non-dict first record fails before the cursor is taken; without a connection `None.cursor()` fails; a record that cannot be projected fails with its own error (`KeyError`); in those cases no call is made. Otherwise it succeeds iff the `executemany` and the commit are both accepted, counting the records, and else ends with that call's own exception, without a rollback |
| Behaviour.RunChunkCalls | src/postgres_manager.py:298-309 | a chunk that goes through counts its records after exactly its `executemany` and commit; one that fails made none, or a prefix of those two calls |
| Behaviour.RunChunks | src/postgres_manager.py:295-313 | no chunk left: the count so far and no call; a run that goes through never lowers the count |
| Behaviour.RunChunksCons | src/postgres_manager.py:295-313 | the first chunk's failure ends the loop; its success continues it with the rest |
| Behaviour.InsertBatchOutcome | src/postgres_manager.py:285-322 | an empty list returns 0 with no call; `None` means `MAX_BATCH_SIZE`; size 0 raises `ValueError`; a negative size returns 0 with no call |
| Behaviour.RunChunksSucceeds | src/postgres_manager.py:295-318 | a successful run counts every record, after one `executemany` and one commit per chunk, in chunk order |
| Behaviour.RunChunksFails | src/postgres_manager.py:295-322 | a failing run stopped at some chunk: earlier chunks are committed, no rollback, and the run ends exactly as that chunk's own pass ends after them (its error, its calls) |
| Behaviour.RunChunksAccepted | src/postgres_manager.py:295-318 | with a connection, an engine that accepts everything and ready chunks, the run succeeds |
| Behaviour.InsertBatchSucceeds | src/postgres_manager.py:295-318 | a successful `insert_batch` returns N, after one `executemany` and one commit per slice `rows[i : i + B]`, in order |
| Behaviour.InsertBatchFails | src/postgres_manager.py:292-322 | a failed `insert_batch` leaves the chunks before the failing one committed, rolls nothing back, and ends with the failing chunk's own error and calls |
| Behaviour.InsertBatchAccepted | src/postgres_manager.py:295-318 | with a connection and an accepting engine, `insert_batch` returns N when every record has its chunk's columns |
| Behaviour.InsertFromJsonOutcome | src/postgres_manager.py:575-580 | an object is inserted as a one-record list and an array as it is, each exactly as `insert_batch` does; anything else raises `ValueError` with no call |
| Behaviour.SingleRecordReady | src/postgres_manager.py:575-576 | a single object is a ready chunk whose one tuple is its values in key order |
| Behaviour.InsertFromJsonObject | src/postgres_manager.py:575-580 | a single object is inserted as one row: one `executemany` of its values, then a commit, returning 1 |
| Behaviour.Step | src/postgres_manager.py:464-470 | a SELECT is executed without a commit and returns its rows; any other statement is executed and committed; a step succeeds iff the driver goes along, and each exception is re-raised after a rollback |
| Behaviour.ScriptOutcome | src/postgres_manager.py:463-473 | no statements: the rows so far, with no call; without a connection the first statement raises |
| Behaviour.ScriptOutcomeCons | src/postgres_manager.py:464-470 | the first statement's failure ends the script; a SELECT replaces the rows so far; anything else keeps them |
| Behaviour.ExecuteSqlFileOutcome | src/postgres_manager.py:459-477 | a file without statements returns `[]` with no call; otherwise without a connection it raises |
| Behaviour.LastSelect | src/postgres_manager.py:454 | the index of a SELECT with none after it, or none exactly when there is no SELECT |
| Behaviour.ScriptLog | src/postgres_manager.py:464-470 | a script that goes through executes every statement in order and commits each that is not a SELECT |
| Behaviour.ScriptRows | src/postgres_manager.py:463-473 | a script that goes through returns the engine's rows for its last SELECT, or `[]` when it has none |
| Behaviour.ScriptFails | src/postgres_manager.py:464-477 | a failing script stopped at one statement: those before it went through, and nothing after it was sent |
| Manager.PostgresManager.constructor | src/postgres_manager.py:52-53 | a new manager holds no connection and has made no call |
| Manager.PostgresManager.Connect | src/postgres_manager.py:56-72 | as `ConnectOutcome`; holds a connection after success, and keeps the old state after a failure |
| Manager.PostgresManager.Disconnect | src/postgres_manager.py:74-88 | as `DisconnectOutcome`; the connection object is kept |
| Manager.PostgresManager.Recovering | src/postgres_manager.py:135-139 | as `Recover` |
| Manager.PostgresManager.ExecuteQuery | src/postgres_manager.py:114-142 | as `RunQuery` |
| Manager.PostgresManager.CreateTable | src/postgres_manager.py:172-191 | its loop builds `ColumnDefs`; then as `CreateTableOutcome` |
| Manager.PostgresManager.DropTable | src/postgres_manager.py:204-213 | as `DropTableOutcome` |
| Manager.PostgresManager.Insert | src/postgres_manager.py:236-259 | as written: as `InsertOutcome` |
| Manager.PostgresManager.InsertCommitted | src/postgres_manager.py:246-255 | corrected: as `InsertCommittedOutcome`, committing after the id is fetched |
| Manager.PostgresManager.ExecuteCommitted | src/postgres_manager.py:359-363 | as `ExecuteAndCommit` |
| Manager.PostgresManager.Update | src/postgres_manager.py:351-370 | as `UpdateOutcome` |
| Manager.PostgresManager.Delete | src/postgres_manager.py:392-406 | as `DeleteOutcome` |
| Manager.PostgresManager.Query | src/postgres_manager.py:428-444 | as `QueryOutcome` |
| Manager.PostgresManager.TableExists | src/postgres_manager.py:639-655 | as `TableExistsOutcome` |
| Manager.PostgresManager.GetTableColumns | src/postgres_manager.py:670-695 | as `TableColumnsOutcome` |
| Manager.PostgresManager.InsertChunk | src/postgres_manager.py:298-313 | as `RunChunk`, and one step of `RunChunks` |
| Manager.PostgresManager.InsertChunks | src/postgres_manager.py:292-318 | the loop over offsets `0, B, 2B, ...` equals `InsertBatchOutcome` |
| Manager.PostgresManager.InsertBatch | src/postgres_manager.py:285-322 | as `InsertBatchOutcome` |
| Manager.PostgresManager.ExecuteFromSqlFile | src/postgres_manager.py:459-477 | its loop equals `ExecuteSqlFileOutcome` on the statements of the file's text |
| Manager.PostgresManager.InsertFromJson | src/postgres_manager.py:569-588 | as `InsertFromJsonOutcome` |

## Left out

- The psycopg2 driver and the PostgreSQL server. They are the `Engine` parameter, which can answer any call in any way.
- Cursors: `connection.cursor()` and `cursor.close()` in `finally` blocks are not logged. `None.cursor()` without a connection is the `NoConnectionObject` error. On a held connection object `cursor()` is taken to succeed, even after `disconnect` has closed it. psycopg2 raises `InterfaceError` there on a closed connection. So in `insert_batch`, a chunk whose records lack a column (or are not mappings) ends in `MissingKey` (or `NotAMapping`) in the model, where a closed connection would raise `InterfaceError` first at src/postgres_manager.py:304.
- Windows paths: `BaseName`, `Suffix` and `GetReader` follow `pathlib.Path` as it parses paths on a POSIX system. Only `/` separates components, and `\` separators and drive letters are not modelled.
- File I/O. `execute_from_sql_file` and `read_file` take the file's text as a parameter. `insert_from_json` takes the document `json.load` produced. Errors from opening or parsing a file are not modelled.
- The readers for CSV, JSON, PDF and Excel, which call pandas, `json` and PyPDF2. `read_file` returns `Parsed(kind, path)` in their place.
- `DataFrameReader.read`: it returns its pandas frame unchanged. Frames are not modelled, and no extension selects this reader.
- `insert_from_csv`, `insert_from_dataframe` and `insert_from_excel`: they turn a pandas frame into records and then call `insert_batch`, which is modelled.
- `query(..., return_df=True)`: it builds a pandas frame from a fresh cursor's `description`.
- Logging, the configuration file and the environment. `MAX_BATCH_SIZE` (config/settings.py:74) is the constructor's `maxBatchSize`.
- `__init__`'s type check of `config` and the connection parameters; `__enter__` and `__exit__`, which only call `connect` and `disconnect`.
- Value types. Values are opaque tokens, apart from text (compared with `"YES"`) and booleans (`table_exists`' default).
- Identifier quoting: names and WHERE clauses are pasted in verbatim, as the code does.
- Readers.Lower: maps only ASCII capitals. Python's `str.lower()` also maps other characters, but only U+0130 and U+212A become ASCII letters (`i` and `k`), and neither is a letter of a table extension; no character becomes `.` or `/`. So whether and which reader is found is unchanged. The extension named in an `UnsupportedFormat` error can keep non-ASCII capitals that Python would lower.
- Behaviour.IsSelect: tests the first six characters against the letters of `SELECT` in either case, plus U+017F (upper case `S`) and U+1E97 (upper case `T` and a combining mark). That is the whole of `statement.upper().startswith("SELECT")` only by Unicode's upper-case table: the other characters whose upper case begins with `S` (`ß`, the `st` ligatures) give `SS` or `ST`, which do not fit. This is argued from the table, not derived.

## Findings

| source | as written | input that shows it | evidently intended | confidence | as-written member | corrected member |
|---|---|---|---|---|---|---|
| src/postgres_manager.py:243-248 | `insert(..., return_id=True)` calls `_execute_query` with `fetch_one=True`, and that path returns before the commit | any record with `return_id=True`: the INSERT ... RETURNING id is executed and its row fetched, but never committed, so closing the connection discards the row | commit after fetching the id, as `insert` does without `return_id` | not executed | Behaviour.InsertReturningNeverCommits | Behaviour.InsertCommittedPersists |
