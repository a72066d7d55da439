/** How `insert_batch` cuts its list of records into chunks and turns each
    chunk into the parameter rows of one `executemany`. */
module Batching {
  import opened Results
  import opened Db

  function Min(a: int, b: int): int {
    if a <= b then a else b
  }

  // ---------------------------------------------------------------------------
  // Projection of records onto the chunk's columns
  // ---------------------------------------------------------------------------

  /** The first position of `columns` that `fields` lacks. */
  predicate FirstMissing(fields: Dict<Value>, columns: seq<string>, j: nat) {
    j < |columns| && columns[j] !in Keys(fields)
    && forall k :: 0 <= k < j ==> columns[k] in Keys(fields)
  }

  /** `tuple(row[col] for col in columns)`: the record's values for the
      columns, in column order, or the failure of the first subscript. */
  function RowValues(row: Record, columns: seq<string>): Result<seq<Value>, Error> {
    if columns == [] then Success([])
    else if row.NonMapping? then Failure(NotAMapping)
    else match Get(row.fields, columns[0])
      case None => Failure(MissingKey(columns[0]))
      case Some(v) =>
        match RowValues(row, columns[1..])
        case Failure(e) => Failure(e)
        case Success(vs) => Success([v] + vs)
  }

  /** A record yields a tuple exactly when it has every column (or there are
      no columns). */
  lemma {:induction false} RowValuesSucceeds(row: Record, columns: seq<string>)
    ensures RowValues(row, columns).Success? <==>
              columns == [] || (row.Mapping? && forall j :: 0 <= j < |columns| ==> columns[j] in Keys(row.fields))
    decreases |columns|
  {
    if columns != [] && row.Mapping? {
      var tail := columns[1..];
      var keys := Keys(row.fields);
      RowValuesSucceeds(row, tail);
      if Get(row.fields, columns[0]).None? {
        assert columns[0] !in keys;
      } else if RowValues(row, tail).Failure? {
        var j :| 0 <= j < |tail| && tail[j] !in keys;
        assert columns[j + 1] !in keys;
      } else {
        assert forall j :: 1 <= j < |columns| ==> columns[j] == tail[j - 1];
      }
    }
  }

  /** The tuple of a record holds its values in column order. */
  lemma {:induction false} RowValuesSpec(row: Record, columns: seq<string>)
    ensures var r := RowValues(row, columns);
            r.Success? ==> |r.value| == |columns|
    ensures var r := RowValues(row, columns);
            r.Success? && row.Mapping? ==>
              forall j :: 0 <= j < |columns| ==> Get(row.fields, columns[j]) == Some(r.value[j])
    decreases |columns|
  {
    if columns != [] && row.Mapping? {
      var tail := columns[1..];
      RowValuesSpec(row, tail);
      match Get(row.fields, columns[0])
      case None =>
      case Some(v) =>
        match RowValues(row, tail)
        case Failure(e) =>
        case Success(vs) =>
          var all := [v] + vs;
          assert RowValues(row, columns) == Success(all);
          forall j | 0 <= j < |columns| ensures Get(row.fields, columns[j]) == Some(all[j]) {
            if j > 0 {
              assert columns[j] == tail[j - 1] && all[j] == vs[j - 1];
            }
          }
    }
  }

  /** A record missing a column raises `KeyError` for the first one it lacks;
      a record that is not a dict fails on its first subscript. */
  lemma {:induction false} RowValuesFails(row: Record, columns: seq<string>)
    ensures var r := RowValues(row, columns);
            r.Failure? && row.NonMapping? ==> r.error == NotAMapping
    ensures var r := RowValues(row, columns);
            r.Failure? && row.Mapping? ==>
              exists j: nat :: FirstMissing(row.fields, columns, j) && r.error == MissingKey(columns[j])
    decreases |columns|
  {
    if columns != [] && row.Mapping? {
      match Get(row.fields, columns[0])
      case None =>
        assert FirstMissing(row.fields, columns, 0);
      case Some(v) =>
        var tail := columns[1..];
        RowValuesFails(row, tail);
        match RowValues(row, tail)
        case Failure(e) =>
          var j: nat :| FirstMissing(row.fields, tail, j) && e == MissingKey(tail[j]);
          assert columns[j + 1] == tail[j];
          assert forall k :: 1 <= k < j + 1 ==> columns[k] == tail[k - 1];
          assert FirstMissing(row.fields, columns, j + 1);
        case Success(vs) =>
    }
  }

  /** `[tuple(row[col] for col in columns) for row in batch]`, evaluated row
      by row: the rows' value tuples, or the failure of the first record that
      does not fit. */
  function Project(chunk: seq<Record>, columns: seq<string>): Result<seq<seq<Value>>, Error> {
    if chunk == [] then Success([])
    else match RowValues(chunk[0], columns)
      case Failure(e) => Failure(e)
      case Success(vs) =>
        match Project(chunk[1..], columns)
        case Failure(e) => Failure(e)
        case Success(rest) => Success([vs] + rest)
  }

  /** The projection succeeds exactly when every record yields a tuple, and
      then holds those tuples in order. */
  lemma {:induction false} ProjectSpec(chunk: seq<Record>, columns: seq<string>)
    ensures var r := Project(chunk, columns);
            r.Success? <==> forall i :: 0 <= i < |chunk| ==> RowValues(chunk[i], columns).Success?
    ensures var r := Project(chunk, columns);
            r.Success? ==> |r.value| == |chunk|
                           && forall i :: 0 <= i < |chunk| ==> RowValues(chunk[i], columns) == Success(r.value[i])
    decreases |chunk|
  {
    if chunk != [] {
      var tail := chunk[1..];
      ProjectSpec(tail, columns);
      var first := RowValues(chunk[0], columns);
      if first.Failure? {
      } else if Project(tail, columns).Failure? {
        var k :| 0 <= k < |tail| && RowValues(tail[k], columns).Failure?;
        assert chunk[k + 1] == tail[k];
      } else {
        var rest := Project(tail, columns).value;
        var all := [first.value] + rest;
        assert Project(chunk, columns) == Success(all);
        forall i | 0 <= i < |chunk| ensures RowValues(chunk[i], columns) == Success(all[i]) {
          if i > 0 {
            assert chunk[i] == tail[i - 1] && all[i] == rest[i - 1];
          }
        }
      }
    }
  }

  /** A projection that fails fails as the first record that yields no tuple. */
  lemma {:induction false} ProjectFails(chunk: seq<Record>, columns: seq<string>)
    ensures var r := Project(chunk, columns);
            r.Failure? ==> exists k :: 0 <= k < |chunk| && RowValues(chunk[k], columns) == Failure(r.error)
                                       && forall i :: 0 <= i < k ==> RowValues(chunk[i], columns).Success?
    decreases |chunk|
  {
    if chunk != [] {
      var tail := chunk[1..];
      ProjectFails(tail, columns);
      var first := RowValues(chunk[0], columns);
      if first.Failure? {
        assert RowValues(chunk[0], columns) == Failure(Project(chunk, columns).error);
      } else if Project(tail, columns).Failure? {
        var e := Project(tail, columns).error;
        var k :| 0 <= k < |tail| && RowValues(tail[k], columns) == Failure(e)
                 && forall i :: 0 <= i < k ==> RowValues(tail[i], columns).Success?;
        assert Project(chunk, columns) == Project(tail, columns);
        assert chunk[k + 1] == tail[k];
        forall i | 0 <= i < k + 1 ensures RowValues(chunk[i], columns).Success? {
          if i > 0 {
            assert chunk[i] == tail[i - 1];
          }
        }
      }
    }
  }

  // ---------------------------------------------------------------------------
  // Chunks
  // ---------------------------------------------------------------------------

  /** The slices `rows[i : i + size]` for `i` in `range(0, len(rows), size)`. */
  function Chunks<T>(rows: seq<T>, size: nat): (cs: seq<seq<T>>)
    requires size > 0
    decreases |rows|
  {
    if rows == [] then []
    else
      var n := Min(size, |rows|);
      [rows[..n]] + Chunks(rows[n..], size)
  }

  /** No chunk is empty. */
  predicate NonEmptyChunks<T>(cs: seq<seq<T>>) {
    forall k :: 0 <= k < |cs| ==> cs[k] != []
  }

  /** Concatenation of a list of lists. */
  function Flatten<T>(xss: seq<seq<T>>): seq<T> {
    if xss == [] then [] else xss[0] + Flatten(xss[1..])
  }

  /** Euclidean division has a unique quotient and remainder. */
  lemma DivUnique(a: int, d: int, q: int, r: int)
    requires d > 0 && 0 <= r < d && a == q * d + r
    ensures a / d == q
  {
    var q' := a / d;
    var r' := a % d;
    assert a == q' * d + r';
    if q' > q {
      MulMono(q + 1, q', d);
    } else if q' < q {
      MulMono(q' + 1, q, d);
    }
  }

  /** Multiplying by a positive number keeps the order. */
  lemma MulMono(x: int, y: int, d: int)
    requires x <= y && d > 0
    ensures x * d <= y * d
  {
    assert y * d - x * d == (y - x) * d;
  }

  /** There are `ceil(len(rows) / size)` chunks. */
  lemma {:induction false} ChunksCount<T>(rows: seq<T>, size: nat)
    requires size > 0
    ensures |Chunks(rows, size)| == (|rows| + size - 1) / size
    decreases |rows|
  {
    if rows != [] {
      var n := Min(size, |rows|);
      ChunksCount(rows[n..], size);
      if |rows| <= size {
        DivUnique(|rows| + size - 1, size, 1, |rows| - 1);
      } else {
        var m := |rows| - size + size - 1;
        DivUnique(m + size, size, m / size + 1, m % size);
      }
    }
  }

  /** Every chunk is non-empty; all but the last hold exactly `size` rows and
      the last at most `size`. */
  lemma {:induction false} ChunksSizes<T>(rows: seq<T>, size: nat)
    requires size > 0
    ensures forall k :: 0 <= k < |Chunks(rows, size)| ==> 0 < |Chunks(rows, size)[k]| <= size
    ensures forall k :: 0 <= k < |Chunks(rows, size)| - 1 ==> |Chunks(rows, size)[k]| == size
    decreases |rows|
  {
    if rows != [] {
      var n := Min(size, |rows|);
      var cs := Chunks(rows, size);
      ChunksSizes(rows[n..], size);
      assert cs[1..] == Chunks(rows[n..], size);
      assert |cs| > 1 ==> rows[n..] != [];
    }
  }

  /** In order, the chunks make up the input. */
  lemma {:induction false} ChunksFlatten<T>(rows: seq<T>, size: nat)
    requires size > 0
    ensures Flatten(Chunks(rows, size)) == rows
    decreases |rows|
  {
    if rows != [] {
      var n := Min(size, |rows|);
      var cs := Chunks(rows, size);
      ChunksFlatten(rows[n..], size);
      assert cs[1..] == Chunks(rows[n..], size);
      assert rows == rows[..n] + rows[n..];
    }
  }

  /** Chunk `k` is the slice of the input from `k * size` up to
      `(k + 1) * size` or the end. */
  lemma {:induction false} ChunkAt<T>(rows: seq<T>, size: nat, k: nat)
    requires size > 0 && k < |Chunks(rows, size)|
    ensures k * size < |rows|
    ensures Chunks(rows, size)[k] == rows[k * size .. Min(k * size + size, |rows|)]
    decreases k
  {
    var n := Min(size, |rows|);
    assert Chunks(rows, size) == [rows[..n]] + Chunks(rows[n..], size);
    if k > 0 {
      assert rows[n..] != [];
      ChunkAt(rows[n..], size, k - 1);
      assert (k - 1) * size + size == k * size;
    }
  }

  /** The rows from offset `i` on: their first chunk is `rows[i : i + size]`,
      followed by the chunks from `i + size` on. */
  lemma ChunksFrom<T>(rows: seq<T>, size: nat, i: nat)
    requires size > 0 && i < |rows|
    ensures Chunks(rows[i..], size) ==
              [rows[i..Min(i + size, |rows|)]] + Chunks(rows[Min(i + size, |rows|)..], size)
  {
    var n := Min(size, |rows| - i);
    assert rows[i..][..n] == rows[i..Min(i + size, |rows|)];
    assert rows[i..][n..] == rows[Min(i + size, |rows|)..];
  }

  /** One pass of the loop over offsets: from offset `i` the first chunk is
      the slice that starts there, and the remaining chunks are those of the
      next offset, all non-empty. */
  lemma ChunksStep<T>(rows: seq<T>, size: nat, i: nat, next: nat)
    requires size > 0 && i < |rows| && next == Min(i + size, |rows|)
    ensures Chunks(rows[i..], size) != []
    ensures Chunks(rows[i..], size)[0] == rows[i..next]
    ensures Chunks(rows[i..], size)[1..] == Chunks(rows[next..], size)
    ensures NonEmptyChunks(Chunks(rows[i..], size)) && NonEmptyChunks(Chunks(rows[next..], size))
  {
    ChunksFrom(rows, size, i);
    ChunksSizes(rows[i..], size);
    ChunksSizes(rows[next..], size);
  }

  /** For example, 2500 rows in chunks of 1000 give chunks of 1000, 1000
      and 500 rows. */
  lemma ChunksOfThousand<T>(rows: seq<T>)
    requires |rows| == 2500
    ensures |Chunks(rows, 1000)| == 3
    ensures |Chunks(rows, 1000)[0]| == 1000 && |Chunks(rows, 1000)[1]| == 1000
    ensures |Chunks(rows, 1000)[2]| == 500
  {
    ChunksCount(rows, 1000);
    ChunksSizes(rows, 1000);
    ChunkAt(rows, 1000, 2);
  }
}
