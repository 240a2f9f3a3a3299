/** `merge_csv_files`: the train file's rows tagged `train`, then the test
    file's rows given an empty outcome field and tagged `test`, under the train
    header extended by the `dataset` column. Files are sequences of rows, the
    first of which is the header. */
module Merger {
  import opened Table

  /** What the merger writes and the counters it reports. */
  datatype Merged = Merged(rows: seq<Row>, trainCount: nat, testCount: nat)

  /** A train record with its provenance tag. */
  function TaggedTrain(row: Row): Row
  {
    row + [TrainTag]
  }

  /** A test record with the missing outcome filled by "" and its provenance tag. */
  function TaggedTest(row: Row): Row
  {
    row + ["", TestTag]
  }

  /** The merged file: extended header, tagged train rows, tagged test rows. */
  function MergedRows(header: Row, trainRows: seq<Row>, testRows: seq<Row>): (out: seq<Row>)
    ensures |out| == 1 + |trainRows| + |testRows|
    ensures out[0] == header + [DatasetCol]
    ensures forall k :: 0 <= k < |trainRows| ==> out[1 + k] == trainRows[k] + [TrainTag]
    ensures forall k :: 0 <= k < |testRows| ==>
              out[1 + |trainRows| + k] == testRows[k] + ["", TestTag]
  {
    [header + [DatasetCol]]
    + seq(|trainRows|, k requires 0 <= k < |trainRows| => TaggedTrain(trainRows[k]))
    + seq(|testRows|, k requires 0 <= k < |testRows| => TaggedTest(testRows[k]))
  }

  /** The merger over in-memory files. Either file lacking a header row is the
      StopIteration that `next(reader)` raises; the test header is read and
      dropped. */
  method MergeCsvFiles(trainFile: seq<Row>, testFile: seq<Row>) returns (r: Result<Merged>)
    ensures trainFile == [] || testFile == [] <==> r == Err(EmptyFile)
    ensures r.Ok? ==>
              r.value.rows == MergedRows(trainFile[0], trainFile[1..], testFile[1..])
    ensures r.Ok? ==> r.value.trainCount == |trainFile| - 1 && r.value.testCount == |testFile| - 1
    ensures r.Ok? ==> |r.value.rows| - 1 == r.value.trainCount + r.value.testCount
  {
    var merged: seq<Row> := [];
    if |trainFile| == 0 {
      return Err(EmptyFile);
    }
    var header := trainFile[0];
    merged := merged + [header + [DatasetCol]];
    var trainCount := 0;
    var k := 1;
    while k < |trainFile|
      invariant 1 <= k <= |trainFile|
      invariant trainCount == k - 1
      invariant |merged| == k
      invariant merged[0] == header + [DatasetCol]
      invariant forall j :: 1 <= j < k ==> merged[j] == trainFile[j] + [TrainTag]
    {
      merged := merged + [trainFile[k] + [TrainTag]];
      trainCount := trainCount + 1;
      k := k + 1;
    }

    if |testFile| == 0 {
      return Err(EmptyFile);
    }
    var testCount := 0;
    k := 1;
    while k < |testFile|
      invariant 1 <= k <= |testFile|
      invariant testCount == k - 1
      invariant |merged| == |trainFile| + testCount
      invariant merged[0] == header + [DatasetCol]
      invariant forall j :: 1 <= j < |trainFile| ==> merged[j] == trainFile[j] + [TrainTag]
      invariant forall j :: 1 <= j < k ==>
                  merged[|trainFile| - 1 + j] == testFile[j] + ["", TestTag]
    {
      var withOutcome := testFile[k] + [""];
      merged := merged + [withOutcome + [TestTag]];
      testCount := testCount + 1;
      k := k + 1;
    }
    r := Ok(Merged(merged, trainCount, testCount));
    ghost var spec := MergedRows(header, trainFile[1..], testFile[1..]);
    assert |merged| == |spec|;
    forall j | 0 <= j < |merged| ensures merged[j] == spec[j] {
      if 1 <= j < |trainFile| {
        assert merged[j] == trainFile[1..][j - 1] + [TrainTag];
      } else if |trainFile| <= j {
        assert merged[j] == testFile[1..][j - |trainFile|] + ["", TestTag];
      }
    }
  }
}
