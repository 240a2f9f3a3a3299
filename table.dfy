/** Shared vocabulary of the pipeline: rows read from a comma-separated file,
    the column store (a dictionary from column name to the list of its raw
    values), the fixed column names and tags, the errors the Python code
    raises, and the total/transported record both analyses count with. */
module Table {

  /** One record of a comma-separated file: its fields, in order. */
  type Row = seq<string>

  /** The in-memory column store: column name -> values, in row order. */
  type Columns = map<string, seq<string>>

  /** The provenance column added by the merger, and its two tags. */
  const DatasetCol: string := "dataset"
  const TrainTag: string := "train"
  const TestTag: string := "test"

  /** The outcome column and the value that counts as a positive outcome. */
  const OutcomeCol: string := "Transported"
  const TrueValue: string := "True"

  /** The exceptions the Python functions let escape. */
  datatype Error =
    | EmptyFile                  // `next(reader)` on a file without a header row
    | RowTooLong                 // `header[i]` with i past the header
    | MissingColumn(name: string) // `data[name]` on an absent key
    | ShortColumn                // `merged_data[col][i]` with i past the column

  datatype Result<T> = Ok(value: T) | Err(error: Error)

  datatype Option<T> = None | Some(value: T)

  function Abs(x: real): real
  {
    if x < 0.0 then -x else x
  }

  function Max(a: real, b: real): real
  {
    if a >= b then a else b
  }

  /** The `{'total', 'transported'}` record both analyses keep per category
      or per age group. */
  datatype Counts = Counts(total: nat, transported: nat)

  /** The transport ratio of a record: `transported / total` when
      `total > 0`, else 0. */
  function Ratio(c: Counts): real
  {
    if c.total > 0 then c.transported as real / c.total as real else 0.0
  }

  /** A ratio of a record that counts no more transported rows than rows lies
      in [0, 1]. */
  lemma RatioBounds(c: Counts)
    requires c.transported <= c.total
    ensures 0.0 <= Ratio(c) <= 1.0
  {
    if c.total > 0 {
      var r := c.transported as real / c.total as real;
      assert r * c.total as real == c.transported as real;
    }
  }

  /** The i-th field of every row, in row order. */
  function Column(rows: seq<Row>, i: nat): (col: seq<string>)
    requires forall k :: 0 <= k < |rows| ==> i < |rows[k]|
    ensures |col| == |rows|
    ensures forall k :: 0 <= k < |rows| ==> col[k] == rows[k][i]
  {
    seq(|rows|, k requires 0 <= k < |rows| => rows[k][i])
  }

  /** No column name occurs twice. */
  predicate Distinct(header: Row)
  {
    forall i, j :: 0 <= i < j < |header| ==> header[i] != header[j]
  }

  /** Every row has exactly `width` fields. */
  predicate AllWidth(rows: seq<Row>, width: nat)
  {
    forall k :: 0 <= k < |rows| ==> |rows[k]| == width
  }

  /** All columns of the store have the same length (the number of rows). */
  predicate Rectangular(m: Columns)
  {
    forall a, b :: a in m && b in m ==> |m[a]| == |m[b]|
  }

  /** The column store a well-formed table denotes: `header[i]` maps to the
      i-th field of every row. */
  function ColumnsOf(header: Row, rows: seq<Row>): (m: Columns)
    requires Distinct(header)
    requires AllWidth(rows, |header|)
    ensures m.Keys == set c | c in header
    ensures forall i :: 0 <= i < |header| ==> m[header[i]] == Column(rows, i)
    ensures Rectangular(m)
  {
    var m := map i | 0 <= i < |header| :: header[i] := Column(rows, i);
    assert forall c :: c in header ==> c in m by {
      forall c | c in header ensures c in m {
        var i :| 0 <= i < |header| && header[i] == c;
      }
    }
    m
  }
}
