/** `separate_train_test_data`: splits the column store by the `dataset`
    column into a train store and a test store, neither of which keeps the
    `dataset` column. A row whose tag is neither `train` nor `test` goes to
    neither store. */
module Splitter {
  import opened Table

  /** How many entries of `tags` are `tag`. */
  function Count(tags: seq<string>, tag: string): nat
    decreases |tags|
  {
    if tags == [] then 0
    else Count(tags[..|tags| - 1], tag) + (if tags[|tags| - 1] == tag then 1 else 0)
  }

  /** Every row tagged `train` or `test` has a value in `vals`: the column can
      be read at each index the splitter reads it at. */
  predicate Covered(vals: seq<string>, tags: seq<string>)
  {
    forall i :: 0 <= i < |tags| && (tags[i] == TrainTag || tags[i] == TestTag) ==> i < |vals|
  }

  /** The values of a column at the rows tagged `tag`, in row order. */
  function Pick(vals: seq<string>, tags: seq<string>, tag: string): (r: seq<string>)
    requires tag == TrainTag || tag == TestTag
    requires Covered(vals, tags)
    ensures |r| == Count(tags, tag)
    decreases |tags|
  {
    if tags == [] then []
    else
      Pick(vals, tags[..|tags| - 1], tag)
      + (if tags[|tags| - 1] == tag then [vals[|tags| - 1]] else [])
  }

  /** The row indices tagged `tag`, in increasing order. */
  function TagIndices(tags: seq<string>, tag: string): (idx: seq<nat>)
    ensures |idx| == Count(tags, tag)
    ensures forall k :: 0 <= k < |idx| ==> idx[k] < |tags| && tags[idx[k]] == tag
    decreases |tags|
  {
    if tags == [] then []
    else
      TagIndices(tags[..|tags| - 1], tag)
      + (if tags[|tags| - 1] == tag then [|tags| - 1] else [])
  }

  /** Every column but `dataset` can be read at every tagged row. */
  predicate AllCovered(m: Columns)
    requires DatasetCol in m
  {
    forall c :: c in m && c != DatasetCol ==> Covered(m[c], m[DatasetCol])
  }

  /** One side of the split, after the first `n` rows were dealt out. */
  function PartUpTo(m: Columns, n: nat, tag: string): Columns
    requires tag == TrainTag || tag == TestTag
    requires DatasetCol in m && n <= |m[DatasetCol]|
    requires forall c :: c in m && c != DatasetCol ==> Covered(m[c], m[DatasetCol][..n])
  {
    map c | c in m && c != DatasetCol :: Pick(m[c], m[DatasetCol][..n], tag)
  }

  /** What the splitter returns: the KeyError for a missing `dataset` column,
      the IndexError for a column too short to be read at a tagged row, or the
      two stores. */
  function SplitTable(m: Columns): Result<(Columns, Columns)>
  {
    if DatasetCol !in m then Err(MissingColumn(DatasetCol))
    else if !AllCovered(m) then Err(ShortColumn)
    else
      var tags := m[DatasetCol];
      assert tags[..|tags|] == tags;
      Ok((PartUpTo(m, |tags|, TrainTag), PartUpTo(m, |tags|, TestTag)))
  }

  /** Dealing out one more row extends the list of each column by that row's
      value exactly when the row carries the tag. */
  lemma PickSnoc(vals: seq<string>, tags: seq<string>, tag: string, i: nat)
    requires tag == TrainTag || tag == TestTag
    requires i < |tags| && Covered(vals, tags[..i + 1])
    ensures Covered(vals, tags[..i])
    ensures Pick(vals, tags[..i + 1], tag) ==
              Pick(vals, tags[..i], tag) + (if tags[i] == tag then [vals[i]] else [])
  {
    assert tags[..i + 1][..i] == tags[..i];
  }

  /** A column too short for a tagged row makes the whole split fail. */
  lemma ShortColumnFails(m: Columns, i: nat)
    requires DatasetCol in m && i < |m[DatasetCol]|
    requires m[DatasetCol][i] == TrainTag || m[DatasetCol][i] == TestTag
    requires exists c :: c in m && c != DatasetCol && |m[c]| <= i
    ensures !AllCovered(m)
  {
    var c :| c in m && c != DatasetCol && |m[c]| <= i;
    assert !Covered(m[c], m[DatasetCol]);
  }

  /** One loop step of the splitter: after row i, a side of the split is the
      side before row i, extended by the row's values when it has the tag. */
  lemma PartUpToStep(m: Columns, i: nat, tag: string, next: Columns)
    requires tag == TrainTag || tag == TestTag
    requires DatasetCol in m && i < |m[DatasetCol]|
    requires forall c :: c in m && c != DatasetCol ==> Covered(m[c], m[DatasetCol][..i])
    requires forall c :: c in m && c != DatasetCol ==> Covered(m[c], m[DatasetCol][..i + 1])
    requires next.Keys == m.Keys - {DatasetCol}
    requires m[DatasetCol][i] == tag ==>
               forall c :: c in next ==> i < |m[c]| && next[c] == PartUpTo(m, i, tag)[c] + [m[c][i]]
    requires m[DatasetCol][i] != tag ==> next == PartUpTo(m, i, tag)
    ensures next == PartUpTo(m, i + 1, tag)
  {
    var tags := m[DatasetCol];
    forall c | c in next ensures next[c] == PartUpTo(m, i + 1, tag)[c] {
      PickSnoc(m[c], tags, tag, i);
    }
  }

  /** The initial loop: both stores bind every column but `dataset` to []. */
  method InitParts(m: Columns) returns (train: Columns, test: Columns)
    ensures train.Keys == m.Keys - {DatasetCol} && test.Keys == m.Keys - {DatasetCol}
    ensures forall c :: c in train ==> train[c] == [] && test[c] == []
  {
    train, test := map[], map[];
    var rest := m.Keys;
    while rest != {}
      invariant rest <= m.Keys
      invariant train.Keys == (m.Keys - rest) - {DatasetCol}
      invariant test.Keys == train.Keys
      invariant forall c :: c in train ==> train[c] == [] && test[c] == []
      decreases rest
    {
      var c :| c in rest;
      if c != DatasetCol {
        train := train[c := []];
        test := test[c := []];
      }
      rest := rest - {c};
    }
  }

  /** The inner loop over columns for one row: appends `m[c][i]` to the list
      of every column but `dataset`; `None` is the IndexError of a column that
      has no index i. */
  method AppendAt(m: Columns, acc: Columns, i: nat) returns (r: Option<Columns>)
    requires acc.Keys == m.Keys - {DatasetCol}
    ensures r.None? <==> exists c :: c in m && c != DatasetCol && |m[c]| <= i
    ensures r.Some? ==> r.value.Keys == acc.Keys
    ensures r.Some? ==> forall c :: c in acc ==> i < |m[c]| && r.value[c] == acc[c] + [m[c][i]]
  {
    var out := acc;
    var rest := m.Keys;
    while rest != {}
      invariant rest <= m.Keys
      invariant out.Keys == acc.Keys
      invariant forall c :: c in acc && c !in rest ==> i < |m[c]| && out[c] == acc[c] + [m[c][i]]
      invariant forall c :: c in acc && c in rest ==> out[c] == acc[c]
      decreases rest
    {
      var c :| c in rest;
      if c != DatasetCol {
        if i >= |m[c]| {
          return None;
        }
        out := out[c := out[c] + [m[c][i]]];
      }
      rest := rest - {c};
    }
    r := Some(out);
  }

  /** The body of the loop over rows: row i goes to the train store, to the
      test store, or (any other tag) nowhere. */
  method DealRow(m: Columns, train: Columns, test: Columns, i: nat) returns (r: Option<(Columns, Columns)>)
    requires DatasetCol in m && i < |m[DatasetCol]|
    requires forall c :: c in m && c != DatasetCol ==> Covered(m[c], m[DatasetCol][..i])
    requires train == PartUpTo(m, i, TrainTag) && test == PartUpTo(m, i, TestTag)
    ensures r.None? ==> !AllCovered(m)
    ensures r.Some? ==> forall c :: c in m && c != DatasetCol ==> Covered(m[c], m[DatasetCol][..i + 1])
    ensures r.Some? ==> r.value == (PartUpTo(m, i + 1, TrainTag), PartUpTo(m, i + 1, TestTag))
  {
    var datasetCol := m[DatasetCol];
    var newTrain, newTest := train, test;
    var tag := datasetCol[i];
    if tag == TrainTag {
      var next := AppendAt(m, newTrain, i);
      if next.None? {
        ShortColumnFails(m, i);
        return None;
      }
      newTrain := next.value;
      assert forall c :: c in m && c != DatasetCol ==> i < |m[c]|;
    } else if tag == TestTag {
      var next := AppendAt(m, newTest, i);
      if next.None? {
        ShortColumnFails(m, i);
        return None;
      }
      newTest := next.value;
      assert forall c :: c in m && c != DatasetCol ==> i < |m[c]|;
    }
    forall c | c in m && c != DatasetCol ensures Covered(m[c], datasetCol[..i + 1]) {
      assert datasetCol[..i + 1][i] == tag;
    }
    PartUpToStep(m, i, TrainTag, newTrain);
    PartUpToStep(m, i, TestTag, newTest);
    r := Some((newTrain, newTest));
  }

  /** The splitter. Both stores have exactly the input's columns minus
      `dataset`, and within each store all columns have the same length. */
  method SeparateTrainTestData(m: Columns) returns (r: Result<(Columns, Columns)>)
    ensures r == SplitTable(m)
    ensures r.Ok? ==> r.value.0.Keys == m.Keys - {DatasetCol}
    ensures r.Ok? ==> r.value.1.Keys == m.Keys - {DatasetCol}
    ensures r.Ok? ==> Rectangular(r.value.0) && Rectangular(r.value.1)
  {
    if DatasetCol !in m {
      return Err(MissingColumn(DatasetCol));
    }
    var datasetCol := m[DatasetCol];
    var train, test := InitParts(m);
    assert datasetCol[..0] == [];
    var i := 0;
    while i < |datasetCol|
      invariant 0 <= i <= |datasetCol|
      invariant forall c :: c in m && c != DatasetCol ==> Covered(m[c], datasetCol[..i])
      invariant train == PartUpTo(m, i, TrainTag)
      invariant test == PartUpTo(m, i, TestTag)
    {
      var dealt := DealRow(m, train, test, i);
      if dealt.None? {
        return Err(ShortColumn);
      }
      train, test := dealt.value.0, dealt.value.1;
      i := i + 1;
    }
    assert datasetCol[..i] == datasetCol;
    r := Ok((train, test));
    SplitShape(m);
  }

  /** Both stores have the input's columns minus `dataset`; every column of
      a store is as long as the number of rows carrying its tag. */
  lemma SplitShape(m: Columns)
    requires SplitTable(m).Ok?
    ensures var (train, test) := SplitTable(m).value;
            && train.Keys == m.Keys - {DatasetCol} && test.Keys == m.Keys - {DatasetCol}
            && (forall c :: c in train ==> |train[c]| == Count(m[DatasetCol], TrainTag))
            && (forall c :: c in test ==> |test[c]| == Count(m[DatasetCol], TestTag))
            && Rectangular(train) && Rectangular(test)
  {
    var tags := m[DatasetCol];
    assert tags[..|tags|] == tags;
  }

  /** Row order is kept: index j is listed for `tag` exactly when row j has
      that tag, and the listed indices increase. */
  lemma {:induction false} TagIndicesComplete(tags: seq<string>, tag: string)
    ensures forall j :: 0 <= j < |tags| && tags[j] == tag ==> j in TagIndices(tags, tag)
    ensures forall a, b :: 0 <= a < b < |TagIndices(tags, tag)| ==>
              TagIndices(tags, tag)[a] < TagIndices(tags, tag)[b]
    decreases |tags|
  {
    if tags != [] {
      var init := tags[..|tags| - 1];
      TagIndicesComplete(init, tag);
      var idx := TagIndices(tags, tag);
      forall j | 0 <= j < |tags| && tags[j] == tag ensures j in idx {
        if j < |tags| - 1 {
          assert init[j] == tags[j];
        } else {
          assert idx[|idx| - 1] == j;
        }
      }
    }
  }

  /** A side of the split is the column's values at the tagged indices, in
      their order; rows with any other tag contribute nothing. */
  lemma {:induction false} PickAtTagIndices(vals: seq<string>, tags: seq<string>, tag: string)
    requires tag == TrainTag || tag == TestTag
    requires Covered(vals, tags)
    ensures var idx := TagIndices(tags, tag);
            forall k :: 0 <= k < |idx| ==> idx[k] < |vals| && Pick(vals, tags, tag)[k] == vals[idx[k]]
    decreases |tags|
  {
    if tags != [] {
      var init := tags[..|tags| - 1];
      assert Covered(vals, init);
      PickAtTagIndices(vals, init, tag);
    }
  }

  /** Dealing out two blocks of rows one after the other deals out each. */
  lemma {:induction false} PickAppend(v1: seq<string>, t1: seq<string>, v2: seq<string>, t2: seq<string>, tag: string)
    requires tag == TrainTag || tag == TestTag
    requires |v1| == |t1| && |v2| == |t2|
    ensures Covered(v1 + v2, t1 + t2) && Covered(v1, t1) && Covered(v2, t2)
    ensures Pick(v1 + v2, t1 + t2, tag) == Pick(v1, t1, tag) + Pick(v2, t2, tag)
    decreases |t2|
  {
    if t2 == [] {
      assert t1 + t2 == t1 && v1 + v2 == v1;
    } else {
      var v2' := v2[..|v2| - 1];
      var t2' := t2[..|t2| - 1];
      PickAppend(v1, t1, v2', t2', tag);
      assert (t1 + t2)[..|t1 + t2| - 1] == t1 + t2';
      assert (v1 + v2)[|t1 + t2| - 1] == v2[|t2| - 1];
      assert Pick(v1 + v2, t1 + t2, tag) == Pick(v1 + v2, t1 + t2', tag)
        + (if t2[|t2| - 1] == tag then [v2[|t2| - 1]] else []);
      assert Pick(v1 + v2, t1 + t2', tag) == Pick(v1 + v2', t1 + t2', tag) by {
        assert v1 + v2' == (v1 + v2)[..|v1 + v2'|];
        PickPrefixValues(v1 + v2', v1 + v2, t1 + t2', tag);
      }
      PickPrefixValues(v2', v2, t2', tag);
    }
  }

  /** Only the values at the tagged indices matter. */
  lemma {:induction false} PickPrefixValues(v: seq<string>, w: seq<string>, tags: seq<string>, tag: string)
    requires tag == TrainTag || tag == TestTag
    requires |tags| <= |v| <= |w| && v == w[..|v|]
    ensures Covered(v, tags) && Covered(w, tags)
    ensures Pick(v, tags, tag) == Pick(w, tags, tag)
    decreases |tags|
  {
    if tags != [] {
      PickPrefixValues(v, w, tags[..|tags| - 1], tag);
    }
  }

  /** Rows all tagged `tag` are dealt out whole. */
  lemma {:induction false} PickAllTagged(vals: seq<string>, tags: seq<string>, tag: string)
    requires tag == TrainTag || tag == TestTag
    requires |vals| == |tags| && forall i :: 0 <= i < |tags| ==> tags[i] == tag
    ensures Covered(vals, tags) && Pick(vals, tags, tag) == vals
    decreases |tags|
  {
    if tags != [] {
      PickAllTagged(vals[..|vals| - 1], tags[..|tags| - 1], tag);
      PickPrefixValues(vals[..|vals| - 1], vals, tags[..|tags| - 1], tag);
    }
  }

  /** Rows none of which is tagged `tag` contribute nothing. */
  lemma {:induction false} PickNoneTagged(vals: seq<string>, tags: seq<string>, tag: string)
    requires tag == TrainTag || tag == TestTag
    requires Covered(vals, tags) && forall i :: 0 <= i < |tags| ==> tags[i] != tag
    ensures Pick(vals, tags, tag) == []
    decreases |tags|
  {
    if tags != [] {
      PickNoneTagged(vals, tags[..|tags| - 1], tag);
    }
  }
}
