/** The values, rows and driver calls the manager exchanges with PostgreSQL.
    The server and the psycopg2 driver are not modelled: an `Engine` is any
    function that answers a driver call given every call made before it, and
    the manager's effect on the database is the log of calls it made. */
module Db {
  import opened Results

  /** A column value. Only the two shapes the manager itself inspects are
      told apart: text (compared against `"YES"`) and booleans (the default
      answer of `table_exists`); every other value is an opaque token. */
  datatype Value = Text(s: string) | Bool(b: bool) | Opaque(token: nat)

  /** A row as the driver returns it: a tuple of values. */
  type Row = seq<Value>

  /** No key occurs twice. */
  predicate DistinctKeys<T>(d: seq<(string, T)>) {
    forall i, j :: 0 <= i < j < |d| ==> d[i].0 != d[j].0
  }

  /** A Python `dict` with string keys, in insertion order. */
  type Dict<T> = d: seq<(string, T)> | DistinctKeys(d) witness []

  /** `list(d.keys())`. */
  function Keys<T>(d: seq<(string, T)>): (ks: seq<string>)
    ensures |ks| == |d| && forall i :: 0 <= i < |d| ==> ks[i] == d[i].0
  {
    if d == [] then [] else [d[0].0] + Keys(d[1..])
  }

  /** `list(d.values())`. */
  function Values<T>(d: seq<(string, T)>): (vs: seq<T>)
    ensures |vs| == |d| && forall i :: 0 <= i < |d| ==> vs[i] == d[i].1
  {
    if d == [] then [] else [d[0].1] + Values(d[1..])
  }

  /** `d.get(k)`: the value stored under `k`, if any. */
  function Get<T>(d: seq<(string, T)>, k: string): (r: Option<T>)
    ensures r.None? <==> k !in Keys(d)
    ensures r.Some? ==> exists i :: 0 <= i < |d| && d[i] == (k, r.value)
  {
    if d == [] then None
    else if d[0].0 == k then Some(d[0].1)
    else Get(d[1..], k)
  }

  /** In a dictionary the entry for a key is the one at that key's position. */
  lemma {:induction false} GetAt<T>(d: Dict<T>, i: nat)
    requires i < |d|
    ensures Get(d, d[i].0) == Some(d[i].1)
  {
    if i > 0 {
      assert d[0].0 != d[i].0;
      var t := d[1..];
      assert DistinctKeys(t);
      GetAt(t, i - 1);
    }
  }

  /** An element of a list handed to `insert_batch`: normally a `dict`; any
      other JSON value (a list, a string, a number, `null`) is `NonMapping`. */
  datatype Record = Mapping(fields: Dict<Value>) | NonMapping

  /** A call the manager makes on its connection or on a cursor of it. */
  datatype Event =
    | Connect
    | Execute(sql: string, params: Option<seq<Value>>)
    | ExecuteMany(sql: string, rows: seq<seq<Value>>)
    | Commit
    | Rollback
    | Close

  /** An exception raised by the driver: a `psycopg2.Error`, or anything else. */
  datatype Exception = DatabaseError(msg: string) | OtherError(msg: string)

  /** The driver's answer to a call: it either returns (with the result set
      of an `execute`, when the statement produced one, and its row count) or
      raises. */
  datatype Reply = Accepted(results: Option<seq<Row>>, rowcount: int) | Raised(exc: Exception)

  /** The database behind the driver: the answer to a call, given the calls
      made before it. */
  type Engine = (seq<Event>, Event) -> Reply

  /** Why a manager operation ended with an exception. */
  datatype Error =
    | Failed(exc: Exception)          // an exception from the driver, re-raised
    | NoConnectionObject              // `None.cursor()`: AttributeError
    | NotAMapping                     // `.keys()` or `row[col]` on a non-dict
    | MissingKey(column: string)      // `row[col]`: KeyError
    | ShortRow                        // `row[i]` past the tuple's end: IndexError
    | ZeroBatchSize                   // `range(0, n, 0)`: ValueError
    | NotListOrDict                   // `insert_from_json` on another JSON value

  /** The `psycopg2.Error` that `_execute_query` raises without a connection. */
  const NotConnected := DatabaseError("Not connected to database")

  /** The `psycopg2.ProgrammingError` of `fetchall`/`fetchone` on a statement
      that produced no result set. */
  const NoResults := DatabaseError("no results to fetch")

  /** What a manager operation returns, with the log of driver calls after it. */
  datatype Outcome<T> = Outcome(result: Result<T, Error>, log: seq<Event>)
}
