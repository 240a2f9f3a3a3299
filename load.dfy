/** `read_merged_csv`: transposes a file (header row first) into the column
    store. Each field `row[i]` is appended to the list of `header[i]`; a row
    with more fields than the header fails on `header[i]`, a row with fewer
    fields simply leaves the later columns without a value for that row. */
module Loader {
  import opened Table

  /** Every header name bound to an empty list. */
  function EmptyColumns(header: Row): (m: Columns)
    ensures m.Keys == set c | c in header
    ensures forall c :: c in m ==> m[c] == []
  {
    map c | c in header :: []
  }

  /** The store after the first `n` fields of `row` were appended, field i to
      the list of `header[i]`. */
  function AppendRow(data: Columns, header: Row, row: Row, n: nat): (d: Columns)
    requires n <= |row| && n <= |header|
    requires forall c :: c in header ==> c in data
    ensures d.Keys == data.Keys
    decreases n
  {
    if n == 0 then data
    else
      var d := AppendRow(data, header, row, n - 1);
      d[header[n - 1] := d[header[n - 1]] + [row[n - 1]]]
  }

  /** The store after all `rows` (none longer than the header) were read. */
  function LoadRows(header: Row, rows: seq<Row>): (d: Columns)
    requires forall k :: 0 <= k < |rows| ==> |rows[k]| <= |header|
    ensures d.Keys == set c | c in header
    decreases |rows|
  {
    if rows == [] then EmptyColumns(header)
    else
      var last := rows[|rows| - 1];
      AppendRow(LoadRows(header, rows[..|rows| - 1]), header, last, |last|)
  }

  /** Some data row has more fields than the header. */
  predicate HasLongRow(file: seq<Row>)
    requires file != []
  {
    exists k :: 1 <= k < |file| && |file[k]| > |file[0]|
  }

  /** What reading a whole file yields. */
  function Load(file: seq<Row>): Result<Columns>
  {
    if file == [] then Err(EmptyFile)
    else if HasLongRow(file) then Err(RowTooLong)
    else Ok(LoadRows(file[0], file[1..]))
  }

  /** The loop that binds every header name to a fresh empty list. */
  method InitColumns(header: Row) returns (data: Columns)
    ensures data.Keys == set c | c in header
    ensures forall c :: c in data ==> data[c] == []
    ensures data == EmptyColumns(header)
  {
    data := map[];
    var j := 0;
    while j < |header|
      invariant 0 <= j <= |header|
      invariant data == EmptyColumns(header[..j])
    {
      data := data[header[j] := []];
      j := j + 1;
      assert forall c :: c in header[..j] <==> c in header[..j - 1] || c == header[j - 1];
    }
    assert header[..j] == header;
  }

  /** The inner loop over one record's fields; `None` is the IndexError of a
      record longer than the header. */
  method AppendRecord(data: Columns, header: Row, row: Row) returns (r: Option<Columns>)
    requires forall c :: c in header ==> c in data
    ensures r.None? <==> |row| > |header|
    ensures r.Some? ==> r.value == AppendRow(data, header, row, |row|)
  {
    var d := data;
    var i := 0;
    while i < |row|
      invariant 0 <= i <= |row| && i <= |header|
      invariant d == AppendRow(data, header, row, i)
    {
      if i >= |header| {
        return None;
      }
      d := d[header[i] := d[header[i]] + [row[i]]];
      i := i + 1;
    }
    r := Some(d);
  }

  /** The loader: the empty-file and long-row errors, otherwise the store
      whose keys are exactly the header names. */
  method ReadMergedCsv(file: seq<Row>) returns (r: Result<Columns>)
    ensures r == Load(file)
  {
    if |file| == 0 {
      return Err(EmptyFile);
    }
    var header := file[0];
    var data := InitColumns(header);

    var k := 1;
    while k < |file|
      invariant 1 <= k <= |file|
      invariant forall q :: 1 <= q < k ==> |file[q]| <= |header|
      invariant data == LoadRows(header, file[1..k])
    {
      var row := file[k];
      var appended := AppendRecord(data, header, row);
      if appended.None? {
        assert 1 <= k < |file| && |file[k]| > |file[0]|;
        return Err(RowTooLong);
      }
      data := appended.value;
      assert |file[k]| <= |header|;
      assert forall q :: 1 <= q < k + 1 ==> |file[q]| <= |header|;
      assert LoadRows(header, file[1..k + 1]) == data by {
        var rows := file[1..k + 1];
        assert forall j :: 0 <= j < |rows| ==> |rows[j]| <= |header|;
        assert rows[..|rows| - 1] == file[1..k];
        assert rows[|rows| - 1] == row;
      }
      k := k + 1;
    }
    assert file[1..k] == file[1..];
    assert !HasLongRow(file);
    r := Ok(data);
  }

  /** With distinct names, appending the first n fields extends `header[i]`'s
      list by `row[i]` exactly when i < n. */
  lemma {:induction false} AppendRowAt(data: Columns, header: Row, row: Row, n: nat, i: nat)
    requires Distinct(header)
    requires n <= |row| && n <= |header| && i < |header|
    requires forall c :: c in header ==> c in data
    ensures AppendRow(data, header, row, n)[header[i]] ==
              data[header[i]] + (if i < n then [row[i]] else [])
    decreases n
  {
    if n > 0 {
      AppendRowAt(data, header, row, n - 1, i);
    }
  }

  /** Column `header[i]` of the loaded rows is field i of every row. */
  lemma {:induction false} LoadRowsAt(header: Row, rows: seq<Row>, i: nat)
    requires Distinct(header)
    requires AllWidth(rows, |header|)
    requires i < |header|
    ensures LoadRows(header, rows)[header[i]] == Column(rows, i)
    decreases |rows|
  {
    if rows != [] {
      var init := rows[..|rows| - 1];
      var last := rows[|rows| - 1];
      assert AllWidth(init, |header|);
      var before := LoadRows(header, init);
      assert LoadRows(header, rows) == AppendRow(before, header, last, |last|);
      LoadRowsAt(header, init, i);
      AppendRowAt(before, header, last, |last|, i);
      ColumnSnoc(rows, i);
    }
  }

  lemma ColumnSnoc(rows: seq<Row>, i: nat)
    requires rows != []
    requires forall k :: 0 <= k < |rows| ==> i < |rows[k]|
    ensures Column(rows, i) == Column(rows[..|rows| - 1], i) + [rows[|rows| - 1][i]]
  {
  }

  /** The transpose property: with distinct header names and every row as
      wide as the header, column `header[i]` is field i of every row, and every
      column is as long as the table. */
  lemma LoadRowsTransposes(header: Row, rows: seq<Row>)
    requires Distinct(header)
    requires AllWidth(rows, |header|)
    ensures LoadRows(header, rows) == ColumnsOf(header, rows)
  {
    var d := LoadRows(header, rows);
    var want := ColumnsOf(header, rows);
    forall c | c in d ensures d[c] == want[c] {
      var i :| 0 <= i < |header| && header[i] == c;
      LoadRowsAt(header, rows, i);
    }
  }

  /** A file whose data rows all have the header's width loads without error
      into the transposed table. */
  lemma LoadWellFormed(file: seq<Row>)
    requires file != [] && Distinct(file[0])
    requires AllWidth(file[1..], |file[0]|)
    ensures Load(file) == Ok(ColumnsOf(file[0], file[1..]))
  {
    assert !HasLongRow(file) by {
      forall k | 1 <= k < |file| ensures |file[k]| <= |file[0]| {
        assert file[1..][k - 1] == file[k];
      }
    }
    LoadRowsTransposes(file[0], file[1..]);
  }
}
