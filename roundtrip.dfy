/** The pipeline's lossless round trip: merging a train and a test table,
    reading the merged file back into columns and splitting it by the
    `dataset` tag gives back the train columns unchanged and the test columns
    extended by an all-empty outcome column. */
module RoundTrip {
  import opened Table
  import opened Merger
  import opened Loader
  import opened Splitter

  /** Test records with the outcome placeholder the merger inserts. */
  function WithEmptyOutcome(rows: seq<Row>): (out: seq<Row>)
    ensures |out| == |rows|
    ensures forall k :: 0 <= k < |rows| ==> out[k] == rows[k] + [""]
  {
    seq(|rows|, k requires 0 <= k < |rows| => rows[k] + [""])
  }

  /** The data rows of the merged file (the merged file without its header). */
  function MergedData(header: Row, trainRows: seq<Row>, testRows: seq<Row>): seq<Row>
  {
    MergedRows(header, trainRows, testRows)[1..]
  }

  /** The provenance column of the merged data: `train` on every train row,
      then `test` on every test row. */
  function Tags(n: nat, m: nat): (tags: seq<string>)
    ensures |tags| == n + m
    ensures forall k :: 0 <= k < n ==> tags[k] == TrainTag
    ensures forall k :: n <= k < n + m ==> tags[k] == TestTag
  {
    seq(n, _ => TrainTag) + seq(m, _ => TestTag)
  }

  /** Reading the merged data column by column: the dataset column is the tag
      sequence, column i is the train rows' field i followed by the padded test
      rows' field i. */
  lemma MergedColumns(header: Row, trainRows: seq<Row>, testRows: seq<Row>, i: nat)
    requires |header| >= 1
    requires AllWidth(trainRows, |header|) && AllWidth(testRows, |header| - 1)
    requires i <= |header|
    ensures AllWidth(MergedData(header, trainRows, testRows), |header| + 1)
    ensures AllWidth(WithEmptyOutcome(testRows), |header|)
    ensures i == |header| ==>
              Column(MergedData(header, trainRows, testRows), i) == Tags(|trainRows|, |testRows|)
    ensures i < |header| ==>
              Column(MergedData(header, trainRows, testRows), i) ==
              Column(trainRows, i) + Column(WithEmptyOutcome(testRows), i)
  {
    var rows := MergedData(header, trainRows, testRows);
    var n := |trainRows|;
    assert forall k :: 0 <= k < n ==> rows[k] == trainRows[k] + [TrainTag];
    assert forall k :: n <= k < |rows| ==> rows[k] == testRows[k - n] + ["", TestTag];
    assert AllWidth(rows, |header| + 1);
    if i == |header| {
      assert Column(rows, i) == Tags(|trainRows|, |testRows|);
    } else {
      var padded := WithEmptyOutcome(testRows);
      assert Column(rows, i) == Column(trainRows, i) + Column(padded, i);
    }
  }

  /** One column through the splitter: the train side gets back the train
      rows' field, the test side the padded test rows' field. */
  lemma SplitColumn(a: seq<string>, b: seq<string>)
    ensures Covered(a + b, Tags(|a|, |b|))
    ensures Pick(a + b, Tags(|a|, |b|), TrainTag) == a
    ensures Pick(a + b, Tags(|a|, |b|), TestTag) == b
  {
    var ta := seq(|a|, _ => TrainTag);
    var tb := seq(|b|, _ => TestTag);
    assert Tags(|a|, |b|) == ta + tb;
    PickAppend(a, ta, b, tb, TrainTag);
    PickAppend(a, ta, b, tb, TestTag);
    PickAllTagged(a, ta, TrainTag);
    PickNoneTagged(b, tb, TrainTag);
    PickNoneTagged(a, ta, TestTag);
    PickAllTagged(b, tb, TestTag);
  }

  /** Loading the merged file gives the transposed merged data: the dataset
      column is the tag sequence and column `header[i]` is the train rows'
      field i followed by the padded test rows' field i. */
  lemma LoadMerged(header: Row, trainRows: seq<Row>, testRows: seq<Row>)
    requires |header| >= 1
    requires Distinct(header) && DatasetCol !in header
    requires AllWidth(trainRows, |header|) && AllWidth(testRows, |header| - 1)
    ensures AllWidth(WithEmptyOutcome(testRows), |header|)
    ensures Load(MergedRows(header, trainRows, testRows)).Ok?
    ensures MergedLayout(Load(MergedRows(header, trainRows, testRows)).value,
                         header, trainRows, WithEmptyOutcome(testRows))
  {
    var file := MergedRows(header, trainRows, testRows);
    var rows := MergedData(header, trainRows, testRows);
    var full := header + [DatasetCol];
    MergedColumns(header, trainRows, testRows, |header|);
    assert file[0] == full && file[1..] == rows;
    assert Distinct(full);
    LoadWellFormed(file);
    var m := ColumnsOf(full, rows);
    assert full[|header|] == DatasetCol;
    assert (set c | c in full) == (set c | c in header) + {DatasetCol};
    forall i | 0 <= i < |header|
      ensures m[header[i]] == Column(trainRows, i) + Column(WithEmptyOutcome(testRows), i)
    {
      assert full[i] == header[i];
      MergedColumns(header, trainRows, testRows, i);
    }
  }

  /** The store the merged file loads into. */
  predicate MergedLayout(m: Columns, header: Row, trainRows: seq<Row>, padded: seq<Row>)
    requires AllWidth(trainRows, |header|) && AllWidth(padded, |header|)
  {
    && m.Keys == (set c | c in header) + {DatasetCol}
    && m[DatasetCol] == Tags(|trainRows|, |padded|)
    && forall i :: 0 <= i < |header| ==> m[header[i]] == Column(trainRows, i) + Column(padded, i)
  }

  /** In that store every column can be read at every tagged row. */
  lemma MergedLayoutCovered(m: Columns, header: Row, trainRows: seq<Row>, padded: seq<Row>)
    requires AllWidth(trainRows, |header|) && AllWidth(padded, |header|)
    requires MergedLayout(m, header, trainRows, padded)
    ensures AllCovered(m)
  {
    forall c | c in m && c != DatasetCol ensures Covered(m[c], m[DatasetCol]) {
      var i :| 0 <= i < |header| && header[i] == c;
    }
  }

  /** One column of one side of splitting that store is that side's rows'
      field. */
  lemma MergedLayoutColumn(m: Columns, header: Row, trainRows: seq<Row>, padded: seq<Row>, tag: string, i: nat)
    requires AllWidth(trainRows, |header|) && AllWidth(padded, |header|)
    requires MergedLayout(m, header, trainRows, padded)
    requires tag == TrainTag || tag == TestTag
    requires i < |header|
    ensures Covered(m[header[i]], m[DatasetCol])
    ensures Pick(m[header[i]], m[DatasetCol], tag) ==
              Column(if tag == TrainTag then trainRows else padded, i)
  {
    SplitColumn(Column(trainRows, i), Column(padded, i));
  }

  /** One side of splitting that store is the columns of that side's rows. */
  lemma MergedLayoutSide(m: Columns, header: Row, trainRows: seq<Row>, padded: seq<Row>, tag: string)
    requires Distinct(header) && DatasetCol !in header
    requires AllWidth(trainRows, |header|) && AllWidth(padded, |header|)
    requires MergedLayout(m, header, trainRows, padded)
    requires tag == TrainTag || tag == TestTag
    ensures AllCovered(m)
    ensures PartUpTo(m, |m[DatasetCol]|, tag) ==
              ColumnsOf(header, if tag == TrainTag then trainRows else padded)
  {
    MergedLayoutCovered(m, header, trainRows, padded);
    var tags := m[DatasetCol];
    assert tags[..|tags|] == tags;
    var part := PartUpTo(m, |tags|, tag);
    var want := ColumnsOf(header, if tag == TrainTag then trainRows else padded);
    assert part.Keys == want.Keys by {
      assert part.Keys == m.Keys - {DatasetCol};
    }
    forall c | c in part ensures part[c] == want[c] {
      var i :| 0 <= i < |header| && header[i] == c;
      MergedLayoutColumn(m, header, trainRows, padded, tag, i);
    }
  }

  /** Splitting a store laid out as the loaded merge gives back the two
      tables' columns. */
  lemma SplitMerged(m: Columns, header: Row, trainRows: seq<Row>, padded: seq<Row>)
    requires Distinct(header) && DatasetCol !in header
    requires AllWidth(trainRows, |header|) && AllWidth(padded, |header|)
    requires MergedLayout(m, header, trainRows, padded)
    ensures SplitTable(m) == Ok((ColumnsOf(header, trainRows), ColumnsOf(header, padded)))
  {
    MergedLayoutSide(m, header, trainRows, padded, TrainTag);
    MergedLayoutSide(m, header, trainRows, padded, TestTag);
  }

  /** Merge, load, split: the train store is exactly the train table's columns,
      the test store exactly the test table's columns plus an empty outcome
      column (the outcome is the train header's last column). */
  lemma MergeLoadSplit(header: Row, trainRows: seq<Row>, testRows: seq<Row>)
    requires |header| >= 1
    requires Distinct(header) && DatasetCol !in header
    requires AllWidth(trainRows, |header|) && AllWidth(testRows, |header| - 1)
    ensures AllWidth(WithEmptyOutcome(testRows), |header|)
    ensures Load(MergedRows(header, trainRows, testRows)).Ok?
    ensures SplitTable(Load(MergedRows(header, trainRows, testRows)).value) ==
              Ok((ColumnsOf(header, trainRows), ColumnsOf(header, WithEmptyOutcome(testRows))))
  {
    LoadMerged(header, trainRows, testRows);
    var m := Load(MergedRows(header, trainRows, testRows)).value;
    SplitMerged(m, header, trainRows, WithEmptyOutcome(testRows));
  }

  /** The test store's column named by the last train header (the train
      file's outcome column) is all empty and its other columns are the test
      table's columns. */
  lemma TestSideColumns(header: Row, testRows: seq<Row>)
    requires |header| >= 1 && Distinct(header)
    requires AllWidth(testRows, |header| - 1)
    ensures AllWidth(WithEmptyOutcome(testRows), |header|)
    ensures var test := ColumnsOf(header, WithEmptyOutcome(testRows));
            && test[header[|header| - 1]] == seq(|testRows|, _ => "")
            && forall i :: 0 <= i < |header| - 1 ==> test[header[i]] == Column(testRows, i)
  {
    var padded := WithEmptyOutcome(testRows);
    assert AllWidth(padded, |header|);
    assert Column(padded, |header| - 1) == seq(|testRows|, _ => "");
    forall i | 0 <= i < |header| - 1 ensures Column(padded, i) == Column(testRows, i) {
    }
  }
}
