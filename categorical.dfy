/** The categorical half of `analyze_transported_correlation`: per category
    value, how many rows have it and how many of those were transported; per
    column, the largest distance of a category's transport ratio from the
    overall ratio. Ratios are exact quotients, so they are `real`s here. */
module Categorical {
  import opened Table

  /** The `category_stats` dictionary: its keys in insertion order (Python
      dictionaries iterate in that order) and the record of each key. */
  datatype Tally = Tally(order: seq<string>, stats: map<string, Counts>)

  /** Keys listed once each, exactly the keys of the map, and every record
      counts at least one row and no more transported rows than rows. */
  predicate ValidTally(t: Tally)
  {
    && (forall i, j :: 0 <= i < j < |t.order| ==> t.order[i] != t.order[j])
    && (forall c :: c in t.order ==> c in t.stats)
    && (forall c :: c in t.stats ==> c in t.order)
    && (forall c :: c in t.stats ==> 1 <= t.stats[c].total && t.stats[c].transported <= t.stats[c].total)
  }

  /** Row i takes part: neither its value nor its outcome is empty. */
  predicate Used(vals: seq<string>, ts: seq<string>, i: nat)
    requires i < |vals| && i < |ts|
  {
    vals[i] != "" && ts[i] != ""
  }

  /** One counted row of value v, transported when `hit`. */
  function Record(t: Tally, v: string, hit: bool): Tally
  {
    var c := if v in t.stats then t.stats[v] else Counts(0, 0);
    Tally(if v in t.stats then t.order else t.order + [v],
          t.stats[v := Counts(c.total + 1, if hit then c.transported + 1 else c.transported)])
  }

  /** The dictionary after the first n rows. */
  function TallyUpTo(vals: seq<string>, ts: seq<string>, n: nat): (t: Tally)
    requires n <= |vals| && n <= |ts|
    ensures ValidTally(t)
    ensures t.order != [] ==> n > 0
    decreases n
  {
    if n == 0 then Tally([], map[])
    else
      var t := TallyUpTo(vals, ts, n - 1);
      if Used(vals, ts, n - 1) then Record(t, vals[n - 1], ts[n - 1] == TrueValue) else t
  }

  /** `total_count`: the rows that take part among the first n. */
  function UsedCount(vals: seq<string>, ts: seq<string>, n: nat): nat
    requires n <= |vals| && n <= |ts|
  {
    if n == 0 then 0
    else UsedCount(vals, ts, n - 1) + (if Used(vals, ts, n - 1) then 1 else 0)
  }

  /** The rows among the first n that take part and have value v. */
  function CountOf(vals: seq<string>, ts: seq<string>, n: nat, v: string): nat
    requires n <= |vals| && n <= |ts|
  {
    if n == 0 then 0
    else CountOf(vals, ts, n - 1, v) + (if Used(vals, ts, n - 1) && vals[n - 1] == v then 1 else 0)
  }

  /** The rows among the first n that take part, have value v and were
      transported. */
  function CountTrueOf(vals: seq<string>, ts: seq<string>, n: nat, v: string): nat
    requires n <= |vals| && n <= |ts|
  {
    if n == 0 then 0
    else
      CountTrueOf(vals, ts, n - 1, v)
      + (if Used(vals, ts, n - 1) && vals[n - 1] == v && ts[n - 1] == TrueValue then 1 else 0)
  }

  /** The first row among the first n that takes part and has value v. */
  function FirstUse(vals: seq<string>, ts: seq<string>, n: nat, v: string): (r: nat)
    requires n <= |vals| && n <= |ts|
    requires CountOf(vals, ts, n, v) > 0
    ensures r < n && Used(vals, ts, r) && vals[r] == v
    decreases n
  {
    if CountOf(vals, ts, n - 1, v) > 0 then FirstUse(vals, ts, n - 1, v) else n - 1
  }

  /** Sum of the `total` fields, in key order. */
  function SumTotals(order: seq<string>, stats: map<string, Counts>): nat
    requires forall c :: c in order ==> c in stats
  {
    if order == [] then 0
    else SumTotals(order[..|order| - 1], stats) + stats[order[|order| - 1]].total
  }

  /** The number of outcomes equal to "True". */
  function CountTrue(ts: seq<string>): (n: nat)
    ensures n <= |ts|
  {
    if ts == [] then 0
    else CountTrue(ts[..|ts| - 1]) + (if ts[|ts| - 1] == TrueValue then 1 else 0)
  }

  /** The overall ratio over the whole outcome column (empty outcomes count
      in the denominator). */
  function OverallRatio(ts: seq<string>): real
    requires |ts| > 0
  {
    CountTrue(ts) as real / |ts| as real
  }

  /** How far the ratio of category c lies from the overall ratio. */
  function Deviation(stats: map<string, Counts>, c: string, ts: seq<string>): real
    requires c in stats && |ts| > 0
  {
    Abs(Ratio(stats[c]) - OverallRatio(ts))
  }

  /** `max_diff` after the categories in `order`, starting from 0. */
  function MaxDev(order: seq<string>, stats: map<string, Counts>, ts: seq<string>): real
    requires forall c :: c in order ==> c in stats
    requires order != [] ==> |ts| > 0
  {
    if order == [] then 0.0
    else Max(MaxDev(order[..|order| - 1], stats, ts), Deviation(stats, order[|order| - 1], ts))
  }

  /** The score of a categorical column. */
  function CategoricalDeviation(vals: seq<string>, ts: seq<string>): real
    requires |vals| <= |ts|
  {
    var t := TallyUpTo(vals, ts, |vals|);
    MaxDev(t.order, t.stats, ts)
  }

  /** The counting loop over one column. */
  method CategoryStats(vals: seq<string>, ts: seq<string>) returns (t: Tally, totalCount: nat)
    requires |vals| <= |ts|
    ensures t == TallyUpTo(vals, ts, |vals|)
    ensures totalCount == UsedCount(vals, ts, |vals|)
  {
    var order: seq<string> := [];
    var stats: map<string, Counts> := map[];
    totalCount := 0;
    for i := 0 to |vals|
      invariant Tally(order, stats) == TallyUpTo(vals, ts, i)
      invariant totalCount == UsedCount(vals, ts, i)
    {
      var value := vals[i];
      ghost var before := Tally(order, stats);
      if value != "" && ts[i] != "" {
        if value !in stats {
          order := order + [value];
          stats := stats[value := Counts(0, 0)];
        }
        stats := stats[value := stats[value].(total := stats[value].total + 1)];
        if ts[i] == TrueValue {
          stats := stats[value := stats[value].(transported := stats[value].transported + 1)];
        }
        totalCount := totalCount + 1;
        assert Tally(order, stats) == Record(before, value, ts[i] == TrueValue);
      }
    }
    t := Tally(order, stats);
  }

  /** The loop that keeps the largest deviation seen so far. */
  method MaxDiff(t: Tally, ts: seq<string>) returns (maxDiff: real)
    requires ValidTally(t)
    requires t.order != [] ==> |ts| > 0
    ensures maxDiff == MaxDev(t.order, t.stats, ts)
  {
    maxDiff := 0.0;
    for j := 0 to |t.order|
      invariant maxDiff == MaxDev(t.order[..j], t.stats, ts)
    {
      var category := t.order[j];
      var stats := t.stats[category];
      var ratio := if stats.total > 0 then stats.transported as real / stats.total as real else 0.0;
      var overallRatio := CountTrue(ts) as real / |ts| as real;
      var diff := Abs(ratio - overallRatio);
      maxDiff := Max(maxDiff, diff);
      assert t.order[..j + 1][..j] == t.order[..j];
    }
    assert t.order[..|t.order|] == t.order;
  }

  /** The score of one categorical column: counting, then the maximum
      deviation; it lies in [0, 1]. */
  method CategoricalScore(vals: seq<string>, ts: seq<string>) returns (score: real)
    requires |vals| <= |ts|
    ensures score == CategoricalDeviation(vals, ts)
    ensures 0.0 <= score <= 1.0
  {
    var t, totalCount := CategoryStats(vals, ts);
    score := MaxDiff(t, ts);
    CategoricalDeviationBounds(vals, ts);
  }

  /** Summing `total` after changing one key's record changes the sum by the
      change of that record. */
  lemma {:induction false} SumTotalsUpdate(order: seq<string>, stats: map<string, Counts>, v: string, c: Counts)
    requires forall x :: x in order ==> x in stats
    requires forall i, j :: 0 <= i < j < |order| ==> order[i] != order[j]
    ensures SumTotals(order, stats[v := c]) + (if v in order then stats[v].total else 0) ==
            SumTotals(order, stats) + (if v in order then c.total else 0)
    decreases |order|
  {
    if order != [] {
      var init := order[..|order| - 1];
      SumTotalsUpdate(init, stats, v, c);
      if v == order[|order| - 1] {
        assert v !in init;
      } else {
        assert v in order <==> v in init;
      }
    }
  }

  /** The totals of the categories add up to `total_count`. */
  lemma {:induction false} TallySum(vals: seq<string>, ts: seq<string>, n: nat)
    requires n <= |vals| && n <= |ts|
    ensures var t := TallyUpTo(vals, ts, n);
            SumTotals(t.order, t.stats) == UsedCount(vals, ts, n)
    decreases n
  {
    if n > 0 {
      TallySum(vals, ts, n - 1);
      var t := TallyUpTo(vals, ts, n - 1);
      if Used(vals, ts, n - 1) {
        var v := vals[n - 1];
        var t' := TallyUpTo(vals, ts, n);
        var c := if v in t.stats then t.stats[v] else Counts(0, 0);
        var c' := t'.stats[v];
        SumTotalsUpdate(t.order, t.stats, v, c');
        if v !in t.stats {
          assert t'.order[..|t'.order| - 1] == t.order;
          assert SumTotals(t'.order, t'.stats) == SumTotals(t.order, t'.stats) + 1;
        }
      }
    }
  }

  /** Each category's record counts exactly its rows and its transported
      rows, and a value is a category exactly when some row that takes part
      has it. */
  lemma {:induction false} TallyCounts(vals: seq<string>, ts: seq<string>, n: nat, v: string)
    requires n <= |vals| && n <= |ts|
    ensures var t := TallyUpTo(vals, ts, n);
            && (v in t.stats <==> CountOf(vals, ts, n, v) > 0)
            && (v in t.stats ==> t.stats[v] == Counts(CountOf(vals, ts, n, v), CountTrueOf(vals, ts, n, v)))
    decreases n
  {
    if n > 0 {
      TallyCounts(vals, ts, n - 1, v);
      var t := TallyUpTo(vals, ts, n - 1);
      if Used(vals, ts, n - 1) && vals[n - 1] == v {
        CountTrueOfAtMost(vals, ts, n - 1, v);
        assert TallyUpTo(vals, ts, n) == Record(t, v, ts[n - 1] == TrueValue);
      } else if Used(vals, ts, n - 1) {
        assert TallyUpTo(vals, ts, n).stats == t.stats[vals[n - 1] := TallyUpTo(vals, ts, n).stats[vals[n - 1]]];
      }
    }
  }

  /** No row before `FirstUse` takes part with value v. */
  lemma {:induction false} FirstUseIsFirst(vals: seq<string>, ts: seq<string>, n: nat, v: string, k: nat)
    requires n <= |vals| && n <= |ts|
    requires CountOf(vals, ts, n, v) > 0 && k < FirstUse(vals, ts, n, v)
    ensures !(Used(vals, ts, k) && vals[k] == v)
    decreases n
  {
    if CountOf(vals, ts, n - 1, v) > 0 {
      FirstUseIsFirst(vals, ts, n - 1, v, k);
    } else {
      CountOfZero(vals, ts, n - 1, v, k);
    }
  }

  lemma {:induction false} CountOfZero(vals: seq<string>, ts: seq<string>, n: nat, v: string, k: nat)
    requires n <= |vals| && n <= |ts|
    requires CountOf(vals, ts, n, v) == 0 && k < n
    ensures !(Used(vals, ts, k) && vals[k] == v)
    decreases n
  {
    if k < n - 1 {
      CountOfZero(vals, ts, n - 1, v, k);
    }
  }

  /** The keys of `category_stats` are the values some counted row has, in
      the order of their first counted row. */
  lemma {:induction false} TallyFirstSeen(vals: seq<string>, ts: seq<string>, n: nat)
    requires n <= |vals| && n <= |ts|
    ensures var t := TallyUpTo(vals, ts, n);
            forall i :: 0 <= i < |t.order| ==> CountOf(vals, ts, n, t.order[i]) > 0
    ensures var t := TallyUpTo(vals, ts, n);
            forall i, j :: 0 <= i < j < |t.order| ==>
              FirstUse(vals, ts, n, t.order[i]) < FirstUse(vals, ts, n, t.order[j])
    decreases n
  {
    if n > 0 {
      TallyFirstSeen(vals, ts, n - 1);
      var o := TallyUpTo(vals, ts, n - 1).order;
      var o' := TallyUpTo(vals, ts, n).order;
      var isNew := TallyOrderStep(vals, ts, n);
      forall i | 0 <= i < |o|
        ensures CountOf(vals, ts, n, o[i]) > 0
        ensures FirstUse(vals, ts, n, o[i]) == FirstUse(vals, ts, n - 1, o[i])
      {
        FirstUseStable(vals, ts, n, o[i]);
      }
      if isNew {
        var v := vals[n - 1];
        TallyCounts(vals, ts, n - 1, v);
        assert FirstUse(vals, ts, n, v) == n - 1;
        forall i, j | 0 <= i < j < |o'|
          ensures FirstUse(vals, ts, n, o'[i]) < FirstUse(vals, ts, n, o'[j])
        {
          if j == |o| {
            assert o'[i] == o[i] && o'[j] == v;
          } else {
            assert o'[i] == o[i] && o'[j] == o[j];
          }
        }
      }
    }
  }

  /** Row n - 1 appends its value to the key list exactly when it takes part
      and its value is not yet a key. */
  lemma TallyOrderStep(vals: seq<string>, ts: seq<string>, n: nat) returns (isNew: bool)
    requires 0 < n <= |vals| && n <= |ts|
    ensures isNew <==> Used(vals, ts, n - 1) && vals[n - 1] !in TallyUpTo(vals, ts, n - 1).stats
    ensures TallyUpTo(vals, ts, n).order ==
              if isNew then TallyUpTo(vals, ts, n - 1).order + [vals[n - 1]] else TallyUpTo(vals, ts, n - 1).order
  {
    isNew := Used(vals, ts, n - 1) && vals[n - 1] !in TallyUpTo(vals, ts, n - 1).stats;
  }

  /** A value already seen keeps its first row when one more row is read. */
  lemma FirstUseStable(vals: seq<string>, ts: seq<string>, n: nat, v: string)
    requires 0 < n <= |vals| && n <= |ts|
    requires CountOf(vals, ts, n - 1, v) > 0
    ensures CountOf(vals, ts, n, v) > 0 && FirstUse(vals, ts, n, v) == FirstUse(vals, ts, n - 1, v)
  {
  }

  lemma {:induction false} CountTrueOfAtMost(vals: seq<string>, ts: seq<string>, n: nat, v: string)
    requires n <= |vals| && n <= |ts|
    ensures CountTrueOf(vals, ts, n, v) <= CountOf(vals, ts, n, v)
    decreases n
  {
    if n > 0 {
      CountTrueOfAtMost(vals, ts, n - 1, v);
    }
  }

  lemma OverallRatioBounds(ts: seq<string>)
    requires |ts| > 0
    ensures 0.0 <= OverallRatio(ts) <= 1.0
  {
    var r := OverallRatio(ts);
    assert r * |ts| as real == CountTrue(ts) as real;
  }

  /** `max_diff` is the largest deviation of the categories (0 when there is
      none), and it lies in [0, 1]. */
  lemma {:induction false} MaxDevIsMax(order: seq<string>, stats: map<string, Counts>, ts: seq<string>)
    requires forall c :: c in order ==> c in stats
    requires forall c :: c in stats ==> stats[c].transported <= stats[c].total
    requires order != [] ==> |ts| > 0
    ensures forall c :: c in order ==> Deviation(stats, c, ts) <= MaxDev(order, stats, ts)
    ensures MaxDev(order, stats, ts) == 0.0 ||
            exists c :: c in order && Deviation(stats, c, ts) == MaxDev(order, stats, ts)
    ensures 0.0 <= MaxDev(order, stats, ts) <= 1.0
    decreases |order|
  {
    if order != [] {
      var init := order[..|order| - 1];
      var last := order[|order| - 1];
      MaxDevIsMax(init, stats, ts);
      RatioBounds(stats[last]);
      OverallRatioBounds(ts);
      forall c | c in order ensures Deviation(stats, c, ts) <= MaxDev(order, stats, ts) {
        if c != last {
          assert c in init;
        }
      }
      if MaxDev(init, stats, ts) != 0.0 && MaxDev(order, stats, ts) == MaxDev(init, stats, ts) {
        var c :| c in init && Deviation(stats, c, ts) == MaxDev(init, stats, ts);
        assert c in order;
      }
    }
  }

  /** The categorical score lies in [0, 1]. */
  lemma CategoricalDeviationBounds(vals: seq<string>, ts: seq<string>)
    requires |vals| <= |ts|
    ensures 0.0 <= CategoricalDeviation(vals, ts) <= 1.0
  {
    var t := TallyUpTo(vals, ts, |vals|);
    MaxDevIsMax(t.order, t.stats, ts);
  }
}
