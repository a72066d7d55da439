/** The SQL texts and parameter tuples `PostgresManager` builds before it
    talks to the driver. Table names, column names, types and WHERE clauses
    are pasted into the text verbatim, without quoting. */
module Statements {
  import opened Results
  import opened Text
  import opened Db

  /** The separator of every list the manager builds. */
  const Comma := ", "

  // ---------------------------------------------------------------------------
  // create_table / drop_table
  // ---------------------------------------------------------------------------

  /** `primary_key and col_name == primary_key`: a primary key is named, is
      not the empty string, and is this column. */
  predicate IsPrimaryKey(pk: Option<string>, column: string) {
    pk.Some? && pk.value != "" && column == pk.value
  }

  /** One column definition: name, a space, the type, and the key marker when
      the column is the primary key. */
  function ColumnDef(column: string, typ: string, primary: bool): string {
    column + " " + typ + (if primary then " PRIMARY KEY" else "")
  }

  /** The `column_defs` loop: one definition per entry of `columns`, in the
      mapping's order. */
  function ColumnDefs(columns: seq<(string, string)>, pk: Option<string>): (defs: seq<string>)
    ensures |defs| == |columns|
    ensures forall i :: 0 <= i < |columns| ==>
              defs[i] == ColumnDef(columns[i].0, columns[i].1, IsPrimaryKey(pk, columns[i].0))
  {
    if columns == [] then []
    else [ColumnDef(columns[0].0, columns[0].1, IsPrimaryKey(pk, columns[0].0))]
         + ColumnDefs(columns[1..], pk)
  }

  /** `create_table`'s statement. With `if_not_exists` false the text keeps
      the two spaces around the empty option. The option follows the keyword
      exactly when asked for, and the text ends with the parenthesised list of
      column definitions (which `ColumnListSplits` splits back). */
  function CreateTableSql(table: string, columns: Dict<string>, pk: Option<string>,
                          ifNotExists: bool): (r: string)
    ensures |r| >= 17 && r[..13] == "CREATE TABLE "
    ensures ifNotExists ==> |r| >= 26 && r[13..26] == "IF NOT EXISTS"
    ensures !ifNotExists ==> r[13] == ' '
    ensures var list := Join(ColumnDefs(columns, pk), Comma);
            |r| >= |list| + 2 && r[|r| - |list| - 2..] == "(" + list + ")"
  {
    var option := if ifNotExists then "IF NOT EXISTS" else "";
    var list := Join(ColumnDefs(columns, pk), Comma);
    var head := "CREATE TABLE " + option;
    var tail := "(" + list + ")";
    var r := "CREATE TABLE " + option + " " + table + " (" + list + ")";
    assert r == head + (" " + table + " ") + tail;
    assert head[..13] == "CREATE TABLE " && head[13..] == option;
    r
  }

  /** The rest of `create_table`'s statement: after the option, a space, the
      table name verbatim and another space, then the parenthesised list and
      nothing else. */
  lemma CreateTableSqlShape(table: string, columns: Dict<string>, pk: Option<string>, ifNotExists: bool)
    ensures var r := CreateTableSql(table, columns, pk, ifNotExists);
            var o := if ifNotExists then 13 else 0;
            var list := Join(ColumnDefs(columns, pk), Comma);
            && |r| == 17 + o + |table| + |list|
            && r[13 + o] == ' ' && r[14 + o..14 + o + |table|] == table && r[14 + o + |table|] == ' '
  {
    var option := if ifNotExists then "IF NOT EXISTS" else "";
    var list := Join(ColumnDefs(columns, pk), Comma);
    var r := CreateTableSql(table, columns, pk, ifNotExists);
    var head := "CREATE TABLE " + option + " ";
    var tail := " (" + list + ")";
    assert r == head + table + tail;
    Parts3(head, table, tail);
  }

  /** The positions of the columns that receive the ` PRIMARY KEY` marker. */
  function MarkedColumns(columns: seq<(string, string)>, pk: Option<string>): set<nat> {
    set i: nat | i < |columns| && IsPrimaryKey(pk, columns[i].0)
  }

  /** The primary-key marker goes to exactly the column named by
      `primary_key`, and to none when no key (or an empty one) is named or the
      name is not a column. */
  lemma PrimaryKeyMarked(columns: Dict<string>, pk: Option<string>)
    ensures pk.None? || pk == Some("") ==> MarkedColumns(columns, pk) == {}
    ensures pk.Some? && pk.value !in Keys(columns) ==> MarkedColumns(columns, pk) == {}
    ensures forall i :: 0 <= i < |columns| && IsPrimaryKey(pk, columns[i].0) ==>
              MarkedColumns(columns, pk) == {i}
  {
    forall i, j | 0 <= i < |columns| && IsPrimaryKey(pk, columns[i].0) && j in MarkedColumns(columns, pk)
      ensures j == i
    {
      assert columns[j].0 == columns[i].0;
    }
    if pk.Some? && pk.value !in Keys(columns) {
      assert forall j :: 0 <= j < |columns| ==> columns[j].0 == Keys(columns)[j] != pk.value;
    }
  }

  /** Splitting the column list of a `create_table` statement on commas gives
      back one definition per column, in order, as long as no name or type
      holds a comma. */
  lemma ColumnListSplits(columns: Dict<string>, pk: Option<string>)
    requires columns != []
    requires forall i :: 0 <= i < |columns| ==> ',' !in columns[i].0 && ',' !in columns[i].1
    ensures SplitOn(Join(ColumnDefs(columns, pk), Comma), ',') == Spaced(ColumnDefs(columns, pk))
  {
    var defs := ColumnDefs(columns, pk);
    forall i | 0 <= i < |defs| ensures ',' !in defs[i] {
      var primary := IsPrimaryKey(pk, columns[i].0);
      assert defs[i] == columns[i].0 + " " + columns[i].1 + (if primary then " PRIMARY KEY" else "");
    }
    SplitJoinSpaced(defs, ',');
  }

  /** `drop_table`'s statement: the keyword, the option exactly when asked
      for, and the table name, verbatim, at the end. */
  function DropTableSql(table: string, ifExists: bool): (r: string)
    ensures |r| >= 12 + |table| && r[..11] == "DROP TABLE "
    ensures r[|r| - |table|..] == table && r[|r| - |table| - 1] == ' '
    ensures (r[11..|r| - |table| - 1] == "IF EXISTS") <==> ifExists
    ensures |r| == (if ifExists then 21 else 12) + |table|
  {
    "DROP TABLE " + (if ifExists then "IF EXISTS" else "") + " " + table
  }

  // ---------------------------------------------------------------------------
  // insert / insert_batch
  // ---------------------------------------------------------------------------

  /** `[x] * n`. */
  function Repeat(x: string, n: nat): (r: seq<string>)
    ensures |r| == n && forall i :: 0 <= i < n ==> r[i] == x
  {
    if n == 0 then [] else [x] + Repeat(x, n - 1)
  }

  /** `", ".join(["%s"] * n)`. */
  function Placeholders(n: nat): string {
    Join(Repeat("%s", n), Comma)
  }

  /** Marker counts of the fixed pieces of text. */
  lemma MarkerCounts(marker: string, assignment: string)
    requires marker == "%s" && assignment == " = %s"
    ensures Count(marker, '%') == 1 && Count(assignment, '%') == 1 && Count(Comma, '%') == 0
  {
    assert '%' !in Comma && '%' !in marker[1..];
    assert Count(marker, '%') == 1 + Count(marker[1..], '%');
    assert '%' !in assignment[..3] && assignment[3..] == marker;
    CountConcat(assignment[..3], assignment[3..], '%');
    assert assignment == assignment[..3] + assignment[3..];
  }

  /** The placeholder list holds exactly `n` parameter markers. */
  lemma {:induction false} PlaceholderCount(n: nat)
    ensures Count(Placeholders(n), '%') == n
  {
    var marker := "%s";
    MarkerCounts(marker, " = %s");
    var r := Repeat(marker, n);
    if n > 1 {
      PlaceholderCount(n - 1);
      assert r[1..] == Repeat(marker, n - 1);
      JoinCountCons(r, Comma, '%');
    }
  }

  /** The INSERT statement of `insert` and of each `insert_batch` chunk: the
      table name verbatim after the keyword, then the column list. */
  function InsertSql(table: string, columns: seq<string>, returnId: bool): (r: string)
    ensures |r| >= 12 + |table| && r[..12] == "INSERT INTO " && r[12..12 + |table|] == table
  {
    var head := "INSERT INTO " + table;
    var r := "INSERT INTO " + table + " (" + Join(columns, Comma) + ") VALUES (" + Placeholders(|columns|) + ")"
      + (if returnId then " RETURNING id" else "");
    assert r[..|head|] == head;
    r
  }

  /** After the table name the INSERT holds the parenthesised column list,
      `VALUES` with one marker per column, and ` RETURNING id` exactly when
      asked for. */
  lemma InsertSqlShape(table: string, columns: seq<string>, returnId: bool)
    ensures var r := InsertSql(table, columns, returnId);
            |r| >= 12 + |table|
            && r[12 + |table|..] == " (" + Join(columns, Comma) + ") VALUES (" + Placeholders(|columns|) + ")"
                                    + (if returnId then " RETURNING id" else "")
  {
    var head := "INSERT INTO " + table;
    var rest := " (" + Join(columns, Comma) + ") VALUES (" + Placeholders(|columns|) + ")"
                + (if returnId then " RETURNING id" else "");
    assert InsertSql(table, columns, returnId) == head + rest by {
      assert |"INSERT INTO "| == 12;
    }
    assert (head + rest)[|head|..] == rest;
  }

  /** The column list and the marker list of an INSERT split back on commas
      into one item per column, in order, as long as no column name holds a
      comma; so the `i`-th column named in the text gets the `i`-th marker. */
  lemma InsertListsSplit(table: string, columns: seq<string>, returnId: bool)
    requires columns != [] && forall i :: 0 <= i < |columns| ==> ',' !in columns[i]
    ensures var r := InsertSql(table, columns, returnId);
            var list := Join(columns, Comma);
            && r[14 + |table|..14 + |table| + |list|] == list
            && SplitOn(list, ',') == Spaced(columns)
    ensures SplitOn(Placeholders(|columns|), ',') == Spaced(Repeat("%s", |columns|))
  {
    InsertColumnsAt(table, columns, returnId);
    SplitJoinSpaced(columns, ',');
    MarkersSplit(|columns|);
  }

  /** The column list sits right after the table name and ` (`. */
  lemma InsertColumnsAt(table: string, columns: seq<string>, returnId: bool)
    ensures var r := InsertSql(table, columns, returnId);
            var list := Join(columns, Comma);
            |r| >= 14 + |table| + |list| && r[14 + |table|..14 + |table| + |list|] == list
  {
    var r := InsertSql(table, columns, returnId);
    var list := Join(columns, Comma);
    var marks := Placeholders(|columns|);
    var tail := if returnId then " RETURNING id" else "";
    var after := ") VALUES (" + marks + ")" + tail;
    InsertSqlShape(table, columns, returnId);
    var rest := r[12 + |table|..];
    RegroupTail(" (", list, ") VALUES (", marks, ")", tail);
    Parts3(" (", list, after);
  }

  /** The marker list splits back into `n` markers. */
  lemma MarkersSplit(n: nat)
    requires n > 0
    ensures SplitOn(Placeholders(n), ',') == Spaced(Repeat("%s", n))
  {
    var m := Repeat("%s", n);
    forall i | 0 <= i < n ensures ',' !in m[i] {
      NoCommaIn(m[i], "%s");
    }
    SplitJoinSpaced(m, ',');
  }

  /** No comma in `%s`. */
  lemma NoCommaIn(x: string, marker: string)
    requires x == marker && marker == "%s"
    ensures ',' !in x
  {
    assert x == ['%', 's'];
  }

  /** `tuple(values)` of `insert`: the record's values in column order. */
  function InsertParams(data: Dict<Value>): (ps: seq<Value>)
    ensures |ps| == |Keys(data)|
    ensures forall i :: 0 <= i < |data| ==> Get(data, Keys(data)[i]) == Some(ps[i])
  {
    forall i | 0 <= i < |data| ensures Get(data, Keys(data)[i]) == Some(Values(data)[i]) {
      GetAt(data, i);
    }
    Values(data)
  }

  /** The statement has one `%s` marker per column, which is one per
      parameter, when the table and column names hold no `%`. */
  lemma InsertPlaceholders(table: string, data: Dict<Value>, returnId: bool)
    requires '%' !in table && forall i :: 0 <= i < |data| ==> '%' !in data[i].0
    ensures Count(InsertSql(table, Keys(data), returnId), '%') == |InsertParams(data)|
  {
    var cols := Keys(data);
    var names := Join(cols, Comma);
    JoinAvoids(cols, Comma, '%');
    var marks := Placeholders(|cols|);
    PlaceholderCount(|cols|);
    var pre := "INSERT INTO " + table + " (" + names + ") VALUES (";
    var post := ")" + (if returnId then " RETURNING id" else "");
    assert InsertSql(table, cols, returnId) == pre + marks + post;
    CountFrame(pre, marks, post, '%');
  }

  /** ` RETURNING id` ends the statement exactly when an id is asked for. */
  lemma InsertReturning(table: string, columns: seq<string>, returnId: bool)
    ensures var q := InsertSql(table, columns, returnId);
            |q| >= 13 && (q[|q| - 13..] == " RETURNING id" <==> returnId)
  {
    var q := InsertSql(table, columns, returnId);
    if !returnId {
      assert q[|q| - 1] == ')';
      assert " RETURNING id"[12] == 'd';
    }
  }

  // ---------------------------------------------------------------------------
  // update / delete
  // ---------------------------------------------------------------------------

  /** `[f"{k} = %s" for k in keys]`. */
  function Assignments(keys: seq<string>): (r: seq<string>)
    ensures |r| == |keys| && forall i :: 0 <= i < |keys| ==> r[i] == keys[i] + " = %s"
  {
    if keys == [] then [] else [keys[0] + " = %s"] + Assignments(keys[1..])
  }

  /** `update`'s statement: the table name verbatim after the keyword, and
      the WHERE clause verbatim at the end. */
  function UpdateSql(table: string, data: Dict<Value>, where: string): (r: string)
    ensures |r| >= 7 + |table| + 7 + |where| && r[..7] == "UPDATE " && r[7..7 + |table|] == table
    ensures r[|r| - |where| - 7..] == " WHERE " + where
  {
    "UPDATE " + table + " SET " + Join(Assignments(Keys(data)), Comma) + " WHERE " + where
  }

  /** Between the table name and the WHERE clause the UPDATE holds ` SET `
      and the assignments, and nothing else. */
  lemma UpdateSqlShape(table: string, data: Dict<Value>, where: string)
    ensures var r := UpdateSql(table, data, where);
            var clause := Join(Assignments(Keys(data)), Comma);
            && |r| == 7 + |table| + 5 + |clause| + 7 + |where|
            && r[7 + |table|..12 + |table|] == " SET " && r[12 + |table|..12 + |table| + |clause|] == clause
  {
    Middle("UPDATE " + table, " SET ", Join(Assignments(Keys(data)), Comma), " WHERE ", where);
  }

  /** The SET clause splits back on commas into one `k = %s` per column, in
      order, as long as no column name holds a comma; so the `i`-th column
      of the text gets the `i`-th new value of `UpdateParams`. */
  lemma UpdateSetSplits(data: Dict<Value>)
    requires data != [] && forall i :: 0 <= i < |data| ==> ',' !in data[i].0
    ensures SplitOn(Join(Assignments(Keys(data)), Comma), ',') == Spaced(Assignments(Keys(data)))
  {
    var keys := Keys(data);
    var a := Assignments(keys);
    forall i | 0 <= i < |a| ensures ',' !in a[i] {
      AssignmentNoComma(keys[i], a[i]);
    }
    SplitJoinSpaced(a, ',');
  }

  /** An assignment holds a comma only if its column name does. */
  lemma AssignmentNoComma(key: string, assignment: string)
    requires assignment == key + " = %s" && ',' !in key
    ensures ',' !in assignment
  {
    var suffix := " = %s";
    assert suffix == [' ', '=', ' ', '%', 's'];
    assert assignment == key + suffix;
    forall i | 0 <= i < |assignment| ensures assignment[i] != ',' {
      if i >= |key| { assert assignment[i] == suffix[i - |key|]; }
      else { assert assignment[i] == key[i]; }
    }
  }

  /** The parameters `where_params` adds: none when it is `None` or empty. */
  function WhereValues(whereParams: Option<seq<Value>>): seq<Value> {
    if whereParams.Some? && whereParams.value != [] then whereParams.value else []
  }

  /** `update`'s parameters: the new values in column order, then the WHERE
      clause's parameters. */
  function UpdateParams(data: Dict<Value>, whereParams: Option<seq<Value>>): (ps: seq<Value>)
    ensures |ps| == |data| + |WhereValues(whereParams)|
    ensures ps[..|data|] == Values(data) && ps[|data|..] == WhereValues(whereParams)
  {
    Values(data) + WhereValues(whereParams)
  }

  /** One assignment holds one marker. */
  lemma AssignmentCount(key: string)
    requires '%' !in key
    ensures Count(key + " = %s", '%') == 1
  {
    MarkerCounts("%s", " = %s");
    CountConcat(key, " = %s", '%');
  }

  /** The SET list holds one marker per column. */
  lemma {:induction false} AssignmentsCount(keys: seq<string>)
    requires forall i :: 0 <= i < |keys| ==> '%' !in keys[i]
    ensures Count(Join(Assignments(keys), Comma), '%') == |keys|
  {
    var a := Assignments(keys);
    if |keys| > 0 {
      AssignmentCount(keys[0]);
    }
    if |keys| > 1 {
      AssignmentsCount(keys[1..]);
      assert a[1..] == Assignments(keys[1..]);
      MarkerCounts("%s", " = %s");
      JoinCountCons(a, Comma, '%');
    }
  }

  /** The SET clause has one marker per updated column, so the statement's
      markers match `update`'s parameters exactly when the WHERE clause's
      markers match `where_params`. */
  lemma UpdatePlaceholders(table: string, data: Dict<Value>, where: string,
                           whereParams: Option<seq<Value>>)
    requires '%' !in table && forall i :: 0 <= i < |data| ==> '%' !in data[i].0
    ensures Count(UpdateSql(table, data, where), '%') == |data| + Count(where, '%')
    ensures Count(UpdateSql(table, data, where), '%') == |UpdateParams(data, whereParams)|
            <==> Count(where, '%') == |WhereValues(whereParams)|
  {
    var keys := Keys(data);
    var assignments := Join(Assignments(keys), Comma);
    AssignmentsCount(keys);
    var pre := "UPDATE " + table + " SET ";
    var mid := " WHERE ";
    var head := pre + assignments + mid;
    assert UpdateSql(table, data, where) == head + where;
    CountFrame(pre, assignments, mid, '%');
    CountConcat(head, where, '%');
  }

  /** `delete`'s statement: the table name verbatim after the keyword, and
      the WHERE clause verbatim at the end. */
  function DeleteSql(table: string, where: string): (r: string)
    ensures |r| == 12 + |table| + 7 + |where| && r[..12] == "DELETE FROM " && r[12..12 + |table|] == table
    ensures r[|r| - |where| - 7..] == " WHERE " + where
  {
    "DELETE FROM " + table + " WHERE " + where
  }

  // ---------------------------------------------------------------------------
  // Fixed catalogue queries
  // ---------------------------------------------------------------------------

  /** The query of `table_exists`, with its line breaks and indentation. */
  const TableExistsSql :=
    "\n                SELECT EXISTS (\n                    SELECT 1 FROM information_schema.tables \n"
    + "                    WHERE table_name = %s\n                )\n            "

  /** The query of `get_table_columns`, with its line breaks and indentation. */
  const TableColumnsSql :=
    "\n                SELECT column_name, data_type, is_nullable\n"
    + "                FROM information_schema.columns\n                WHERE table_name = %s\n"
    + "                ORDER BY ordinal_position\n            "
}
