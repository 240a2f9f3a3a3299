/** The numeric half of `analyze_transported_correlation`: the parseable
    values of a column are split into the transported group and the rest; a
    column with both groups non-empty scores the distance of the two group
    means divided by the population standard deviation of all its values, or 0
    when that deviation is not positive. `float(value)` is the parameter
    `parse` (None for the ValueError), `** 0.5` the parameter `sqrt`; sums,
    means and the variance are exact `real` arithmetic. */
module Numeric {
  import opened Table

  /** Row i's value enters a group: it is non-empty and parses. */
  predicate Parses(vals: seq<string>, parse: string -> Option<real>, i: nat)
    requires i < |vals|
  {
    vals[i] != "" && parse(vals[i]).Some?
  }

  /** `(transported_values, not_transported_values)` after the first n rows. */
  function Groups(vals: seq<string>, ts: seq<string>, parse: string -> Option<real>, n: nat)
    : (g: (seq<real>, seq<real>))
    requires n <= |vals| && n <= |ts|
    decreases n
  {
    if n == 0 then ([], [])
    else
      var (t, f) := Groups(vals, ts, parse, n - 1);
      if Parses(vals, parse, n - 1) then
        var x := parse(vals[n - 1]).value;
        if ts[n - 1] == TrueValue then (t + [x], f) else (t, f + [x])
      else (t, f)
  }

  /** All parseable values of the first n rows, whatever their outcome. */
  function Parsed(vals: seq<string>, parse: string -> Option<real>, n: nat): seq<real>
    requires n <= |vals|
    decreases n
  {
    if n == 0 then []
    else Parsed(vals, parse, n - 1) + (if Parses(vals, parse, n - 1) then [parse(vals[n - 1]).value] else [])
  }

  /** The column with the values of the rows whose outcome is not `want`
      blanked out. */
  function Masked(vals: seq<string>, ts: seq<string>, want: bool): (m: seq<string>)
    requires |vals| <= |ts|
    ensures |m| == |vals|
    ensures forall i :: 0 <= i < |vals| ==> m[i] == if (ts[i] == TrueValue) == want then vals[i] else ""
  {
    seq(|vals|, i requires 0 <= i < |vals| => if (ts[i] == TrueValue) == want then vals[i] else "")
  }

  function Sum(xs: seq<real>): real
  {
    if xs == [] then 0.0 else Sum(xs[..|xs| - 1]) + xs[|xs| - 1]
  }

  function Mean(xs: seq<real>): real
    requires |xs| > 0
  {
    Sum(xs) / |xs| as real
  }

  /** Sum of the squared distances from mu. */
  function SquaredDeviations(xs: seq<real>, mu: real): real
  {
    if xs == [] then 0.0
    else SquaredDeviations(xs[..|xs| - 1], mu) + (xs[|xs| - 1] - mu) * (xs[|xs| - 1] - mu)
  }

  /** The population variance. */
  function Variance(xs: seq<real>): real
    requires |xs| > 0
  {
    SquaredDeviations(xs, Mean(xs)) / |xs| as real
  }

  /** `normalized_diff` of two non-empty groups. */
  function NormalizedDiff(t: seq<real>, f: seq<real>, sqrt: real -> real): real
    requires |t| > 0 && |f| > 0
  {
    var std := sqrt(Variance(t + f));
    if std > 0.0 then Abs(Mean(t) - Mean(f)) / std else 0.0
  }

  /** The score of a numeric column, or None when a group is empty. */
  function NumericScoreOf(vals: seq<string>, ts: seq<string>, parse: string -> Option<real>, sqrt: real -> real)
    : Option<real>
    requires |vals| <= |ts|
  {
    var (t, f) := Groups(vals, ts, parse, |vals|);
    if |t| > 0 && |f| > 0 then Some(NormalizedDiff(t, f, sqrt)) else None
  }

  /** The grouping loop over one column and the guarded score. */
  method NumericScore(vals: seq<string>, ts: seq<string>, parse: string -> Option<real>, sqrt: real -> real)
    returns (score: Option<real>)
    requires |vals| <= |ts|
    ensures score == NumericScoreOf(vals, ts, parse, sqrt)
    ensures score.Some? <==>
              |Groups(vals, ts, parse, |vals|).0| > 0 && |Groups(vals, ts, parse, |vals|).1| > 0
    ensures score.Some? ==> score.value >= 0.0
  {
    var transportedValues: seq<real> := [];
    var notTransportedValues: seq<real> := [];
    for i := 0 to |vals|
      invariant (transportedValues, notTransportedValues) == Groups(vals, ts, parse, i)
    {
      var value := vals[i];
      if value != "" {
        var num := parse(value);
        if num.Some? {
          if ts[i] == TrueValue {
            transportedValues := transportedValues + [num.value];
          } else {
            notTransportedValues := notTransportedValues + [num.value];
          }
        }
      }
    }
    if |transportedValues| > 0 && |notTransportedValues| > 0 {
      score := Some(NormalizedDiff(transportedValues, notTransportedValues, sqrt));
      NormalizedDiffNonNegative(transportedValues, notTransportedValues, sqrt);
    } else {
      score := None;
    }
  }

  /** Every parseable value lands in exactly one group: together the two
      groups hold exactly the parseable values. */
  lemma {:induction false} GroupsPartition(vals: seq<string>, ts: seq<string>, parse: string -> Option<real>, n: nat)
    requires n <= |vals| && n <= |ts|
    ensures var (t, f) := Groups(vals, ts, parse, n);
            multiset(t) + multiset(f) == multiset(Parsed(vals, parse, n))
    decreases n
  {
    if n > 0 {
      GroupsPartition(vals, ts, parse, n - 1);
      var (t, f) := Groups(vals, ts, parse, n - 1);
      var p := Parsed(vals, parse, n - 1);
      if Parses(vals, parse, n - 1) {
        var x := parse(vals[n - 1]).value;
        assert Parsed(vals, parse, n) == p + [x];
        assert multiset(p + [x]) == multiset(p) + multiset{x};
        if ts[n - 1] == TrueValue {
          assert Groups(vals, ts, parse, n) == (t + [x], f);
          assert multiset(t + [x]) == multiset(t) + multiset{x};
        } else {
          assert Groups(vals, ts, parse, n) == (t, f + [x]);
          assert multiset(f + [x]) == multiset(f) + multiset{x};
        }
      } else {
        assert Parsed(vals, parse, n) == p;
        assert Groups(vals, ts, parse, n) == (t, f);
      }
    }
  }

  /** The group is chosen by the outcome: the transported group is the
      parseable values of the rows whose outcome is "True", the other group
      those of all other rows, each in row order. */
  lemma {:induction false} GroupsByOutcome(vals: seq<string>, ts: seq<string>, parse: string -> Option<real>, n: nat)
    requires n <= |vals| <= |ts|
    ensures Groups(vals, ts, parse, n).0 == Parsed(Masked(vals, ts, true), parse, n)
    ensures Groups(vals, ts, parse, n).1 == Parsed(Masked(vals, ts, false), parse, n)
    decreases n
  {
    if n > 0 {
      GroupsByOutcome(vals, ts, parse, n - 1);
    }
  }

  lemma {:induction false} SquaredDeviationsNonNegative(xs: seq<real>, mu: real)
    ensures SquaredDeviations(xs, mu) >= 0.0
    decreases |xs|
  {
    if xs != [] {
      SquaredDeviationsNonNegative(xs[..|xs| - 1], mu);
      var d := xs[|xs| - 1] - mu;
      if d < 0.0 {
        assert d * d == (-d) * (-d);
      }
      assert d * d >= 0.0;
    }
  }

  /** The variance handed to the square root is never negative. */
  lemma VarianceNonNegative(xs: seq<real>)
    requires |xs| > 0
    ensures Variance(xs) >= 0.0
  {
    SquaredDeviationsNonNegative(xs, Mean(xs));
  }

  /** A score is never negative; it is 0 whenever the deviation is not
      positive. */
  lemma NormalizedDiffNonNegative(t: seq<real>, f: seq<real>, sqrt: real -> real)
    requires |t| > 0 && |f| > 0
    ensures NormalizedDiff(t, f, sqrt) >= 0.0
    ensures sqrt(Variance(t + f)) <= 0.0 ==> NormalizedDiff(t, f, sqrt) == 0.0
  {
    var std := sqrt(Variance(t + f));
    if std > 0.0 {
      var d := Abs(Mean(t) - Mean(f));
      assert d / std * std == d;
    }
  }

  lemma {:induction false} SumConstant(xs: seq<real>, v: real)
    requires forall i :: 0 <= i < |xs| ==> xs[i] == v
    ensures Sum(xs) == |xs| as real * v
    decreases |xs|
  {
    if xs != [] {
      SumConstant(xs[..|xs| - 1], v);
    }
  }

  /** Zero-variance guard: a column whose values are all the same scores 0,
      whatever the square root gives. */
  lemma ConstantColumnScoresZero(t: seq<real>, f: seq<real>, v: real, sqrt: real -> real)
    requires |t| > 0 && |f| > 0
    requires forall i :: 0 <= i < |t| ==> t[i] == v
    requires forall i :: 0 <= i < |f| ==> f[i] == v
    ensures NormalizedDiff(t, f, sqrt) == 0.0
  {
    SumConstant(t, v);
    SumConstant(f, v);
    assert Mean(t) == v;
    assert Mean(f) == v;
  }
}
