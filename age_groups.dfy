/** `analyze_age_groups_transported`: the train rows whose age parses are
    counted per decade from the teens to the seventies (younger and older
    passengers are skipped), each decade with data gets its transport ratio
    and a 20-character bar, and a point chart of eleven levels (1.0 down to
    0.0) marks each decade whose ratio, relative to the largest ratio,
    reaches the level. Decades are numbered 0 (teens) to 6 (seventies), in
    the order the Python dictionary lists them. */
module AgeGroups {
  import opened Table

  const AgeCol: string := "Age"

  /** The seven decades and their labels ("10대" ... "70대"). */
  const GroupCount: nat := 7
  const Labels: seq<string> := ["10\U{B300}", "20\U{B300}", "30\U{B300}", "40\U{B300}",
                                "50\U{B300}", "60\U{B300}", "70\U{B300}"]

  /** Bar width in characters and point chart height in steps. */
  const BarWidth: nat := 20
  const GraphHeight: nat := 10

  const FullBlock: char := '\U{2588}'
  const LightShade: char := '\U{2591}'
  const Point: string := " \U{25CF} "
  const Blank: string := "   "

  // ---------------------------------------------------------------- decades

  /** The if-chain that picks the decade of an age, None outside [10, 80). */
  function BucketOf(age: real): (g: Option<nat>)
    ensures g.Some? ==> g.value < GroupCount
  {
    if 10.0 <= age < 20.0 then Some(0)
    else if 20.0 <= age < 30.0 then Some(1)
    else if 30.0 <= age < 40.0 then Some(2)
    else if 40.0 <= age < 50.0 then Some(3)
    else if 50.0 <= age < 60.0 then Some(4)
    else if 60.0 <= age < 70.0 then Some(5)
    else if 70.0 <= age < 80.0 then Some(6)
    else None
  }

  /** The chain is decade arithmetic: an age in [10, 80) falls in group
      `floor(age / 10) - 1`, whose range [10(g+1), 10(g+2)) holds it; any
      other age in none. */
  lemma BucketOfDecade(age: real)
    ensures BucketOf(age).Some? <==> 10.0 <= age < 80.0
    ensures BucketOf(age).Some? ==> BucketOf(age).value == (age / 10.0).Floor - 1
    ensures BucketOf(age).Some? ==>
              10.0 * (BucketOf(age).value + 1) as real <= age < 10.0 * (BucketOf(age).value + 2) as real
  {
    if 10.0 <= age < 80.0 {
      var g := BucketOf(age).value;
      var x := age / 10.0;
      assert (g + 1) as real <= x < (g + 2) as real;
    }
  }

  /** Row i's age is non-empty and parses. */
  predicate AgeParses(ages: seq<string>, parse: string -> Option<real>, i: nat)
    requires i < |ages|
  {
    ages[i] != "" && parse(ages[i]).Some?
  }

  /** The decade row i is counted in, if any. */
  function BucketAt(ages: seq<string>, parse: string -> Option<real>, i: nat): (g: Option<nat>)
    requires i < |ages|
    ensures g.Some? ==> g.value < GroupCount
  {
    if AgeParses(ages, parse, i) then BucketOf(parse(ages[i]).value) else None
  }

  /** One more row in a decade's record, transported when `hit`. */
  function Bump(c: Counts, hit: bool): Counts
  {
    Counts(c.total + 1, if hit then c.transported + 1 else c.transported)
  }

  /** The `age_groups` records after the first n rows. */
  function AgeTally(ages: seq<string>, ts: seq<string>, parse: string -> Option<real>, n: nat)
    : (groups: seq<Counts>)
    requires n <= |ages| && |ages| <= |ts|
    ensures |groups| == GroupCount
    decreases n
  {
    if n == 0 then seq(GroupCount, _ => Counts(0, 0))
    else
      var groups := AgeTally(ages, ts, parse, n - 1);
      match BucketAt(ages, parse, n - 1)
      case None => groups
      case Some(g) => groups[g := Bump(groups[g], ts[n - 1] == TrueValue)]
  }

  /** Reference count: the rows among the first n that fall in decade g. */
  function InGroup(ages: seq<string>, parse: string -> Option<real>, n: nat, g: nat): nat
    requires n <= |ages|
  {
    if n == 0 then 0
    else InGroup(ages, parse, n - 1, g) + (if BucketAt(ages, parse, n - 1) == Some(g) then 1 else 0)
  }

  /** Reference count: those of them that were transported. */
  function InGroupTransported(ages: seq<string>, ts: seq<string>, parse: string -> Option<real>, n: nat, g: nat): nat
    requires n <= |ages| && |ages| <= |ts|
  {
    if n == 0 then 0
    else
      InGroupTransported(ages, ts, parse, n - 1, g)
      + (if BucketAt(ages, parse, n - 1) == Some(g) && ts[n - 1] == TrueValue then 1 else 0)
  }

  /** Reference count: the rows among the first n whose age falls in some
      decade. */
  function InRange(ages: seq<string>, parse: string -> Option<real>, n: nat): nat
    requires n <= |ages|
  {
    if n == 0 then 0
    else InRange(ages, parse, n - 1) + (if BucketAt(ages, parse, n - 1).Some? then 1 else 0)
  }

  /** Sum of the `total` fields of a list of records. */
  function TotalOf(groups: seq<Counts>): nat
  {
    if groups == [] then 0 else TotalOf(groups[..|groups| - 1]) + groups[|groups| - 1].total
  }

  /** Seven records, none with more transported rows than rows. */
  predicate ValidGroups(groups: seq<Counts>)
  {
    |groups| == GroupCount && forall g :: 0 <= g < |groups| ==> groups[g].transported <= groups[g].total
  }

  /** The counting loop over the age column. */
  method CountAgeGroups(ages: seq<string>, ts: seq<string>, parse: string -> Option<real>)
    returns (groups: seq<Counts>)
    requires |ages| <= |ts|
    ensures groups == AgeTally(ages, ts, parse, |ages|)
  {
    groups := seq(GroupCount, _ => Counts(0, 0));
    for i := 0 to |ages|
      invariant groups == AgeTally(ages, ts, parse, i)
    {
      var ageStr := ages[i];
      if ageStr != "" {
        var age := parse(ageStr);
        if age.Some? {
          var group := BucketOf(age.value);
          if group.Some? {
            var g := group.value;
            var c := groups[g];
            if ts[i] == TrueValue {
              groups := groups[g := Counts(c.total + 1, c.transported + 1)];
            } else {
              groups := groups[g := Counts(c.total + 1, c.transported)];
            }
          }
        }
      }
    }
  }

  /** Each decade's record counts exactly the rows of that decade and, of
      them, the transported ones. */
  lemma {:induction false} AgeTallyCounts(ages: seq<string>, ts: seq<string>, parse: string -> Option<real>, n: nat, g: nat)
    requires n <= |ages| && |ages| <= |ts| && g < GroupCount
    ensures AgeTally(ages, ts, parse, n)[g] ==
              Counts(InGroup(ages, parse, n, g), InGroupTransported(ages, ts, parse, n, g))
    decreases n
  {
    if n > 0 {
      AgeTallyCounts(ages, ts, parse, n - 1, g);
    }
  }

  /** No decade has more transported rows than rows. */
  lemma {:induction false} AgeTallyValid(ages: seq<string>, ts: seq<string>, parse: string -> Option<real>, n: nat)
    requires n <= |ages| && |ages| <= |ts|
    ensures ValidGroups(AgeTally(ages, ts, parse, n))
    decreases n
  {
    if n > 0 {
      AgeTallyValid(ages, ts, parse, n - 1);
    }
  }

  lemma {:induction false} TotalOfUpdate(groups: seq<Counts>, g: nat, c: Counts)
    requires g < |groups|
    ensures TotalOf(groups[g := c]) + groups[g].total == TotalOf(groups) + c.total
    decreases |groups|
  {
    var last := |groups| - 1;
    if g < last {
      TotalOfUpdate(groups[..last], g, c);
      assert groups[g := c][..last] == groups[..last][g := c];
    } else {
      assert groups[g := c][..last] == groups[..last];
    }
  }

  lemma {:induction false} TotalOfZero(k: nat)
    ensures TotalOf(seq(k, _ => Counts(0, 0))) == 0
  {
    if k > 0 {
      TotalOfZero(k - 1);
      assert seq(k, _ => Counts(0, 0))[..k - 1] == seq(k - 1, _ => Counts(0, 0));
    }
  }

  /** Every row whose age falls in [10, 80) is counted once, in one decade:
      the totals add up to the number of such rows; rows under 10, from 80
      on, with an empty or unparseable age are in none. */
  lemma {:induction false} AgeTallyTotal(ages: seq<string>, ts: seq<string>, parse: string -> Option<real>, n: nat)
    requires n <= |ages| && |ages| <= |ts|
    ensures TotalOf(AgeTally(ages, ts, parse, n)) == InRange(ages, parse, n)
    decreases n
  {
    if n == 0 {
      TotalOfZero(GroupCount);
    } else {
      AgeTallyTotal(ages, ts, parse, n - 1);
      var groups := AgeTally(ages, ts, parse, n - 1);
      match BucketAt(ages, parse, n - 1)
      case None =>
      case Some(g) =>
        TotalOfUpdate(groups, g, Bump(groups[g], ts[n - 1] == TrueValue));
    }
  }

  // ------------------------------------------------------------- bar chart

  /** Python's `int()` on a float: truncation toward zero. */
  function Trunc(x: real): int
  {
    if x >= 0.0 then x.Floor else -((-x).Floor)
  }

  /** `s * n` for a one-character string s: empty when n is not positive. */
  function Repeat(ch: char, n: int): (s: string)
    ensures |s| == if n > 0 then n else 0
    ensures forall i :: 0 <= i < |s| ==> s[i] == ch
  {
    seq(if n > 0 then n else 0, _ => ch)
  }

  /** `bar_length = int(ratio * 20)`. */
  function BarLength(ratio: real): int
  {
    Trunc(ratio * BarWidth as real)
  }

  /** The bar: `bar_length` full blocks, then light shade up to 20. */
  function Bar(ratio: real): string
  {
    Repeat(FullBlock, BarLength(ratio)) + Repeat(LightShade, BarWidth - BarLength(ratio))
  }

  /** Flooring the exact quotient of two naturals is integer division. */
  lemma FloorOfQuotient(t: nat, d: nat)
    requires d > 0
    ensures (t as real / d as real).Floor == t / d
  {
    var q := t / d;
    var r := t % d;
    assert t == q * d + r;
    assert t as real == q as real * d as real + r as real;
    assert t as real / d as real == q as real + r as real / d as real;
    assert 0.0 <= r as real / d as real < 1.0;
  }

  /** A decade's bar length is `20 * transported / total` rounded down, at
      most the full width. */
  lemma BarLengthOfCounts(c: Counts)
    requires 0 < c.total && c.transported <= c.total
    ensures BarLength(Ratio(c)) == (c.transported * BarWidth) / c.total
    ensures 0 <= BarLength(Ratio(c)) <= BarWidth
  {
    RatioBounds(c);
    var x := Ratio(c) * BarWidth as real;
    assert x == (c.transported as real * BarWidth as real) / c.total as real;
    assert (c.transported * BarWidth) as real == c.transported as real * BarWidth as real;
    FloorOfQuotient(c.transported * BarWidth, c.total);
  }

  /** A bar whose length is in range is 20 characters: full blocks up to
      the length, light shade after. */
  lemma BarLayout(ratio: real)
    requires 0 <= BarLength(ratio) <= BarWidth
    ensures |Bar(ratio)| == BarWidth
    ensures forall i :: 0 <= i < BarWidth ==>
              Bar(ratio)[i] == if i < BarLength(ratio) then FullBlock else LightShade
  {
  }

  /** A higher ratio never gets a shorter bar. */
  lemma BarLengthMonotone(a: real, b: real)
    requires 0.0 <= a <= b
    ensures BarLength(a) <= BarLength(b)
  {
    assert a * BarWidth as real <= b * BarWidth as real;
  }

  /** One printed line of the table: decade, its record, ratio and bar. */
  datatype BarRow = BarRow(group: nat, counts: Counts, ratio: real, bar: string)

  /** The lines printed for the first n decades: those with data only. */
  function BarRows(groups: seq<Counts>, n: nat): seq<BarRow>
    requires n <= |groups|
  {
    if n == 0 then []
    else
      var c := groups[n - 1];
      BarRows(groups, n - 1)
      + (if c.total > 0 then [BarRow(n - 1, c, Ratio(c), Bar(Ratio(c)))] else [])
  }

  /** The `ratios` list after the first n decades. */
  function Ratios(groups: seq<Counts>, n: nat): seq<real>
    requires n <= |groups|
  {
    if n == 0 then []
    else Ratios(groups, n - 1) + (if groups[n - 1].total > 0 then [Ratio(groups[n - 1])] else [])
  }

  /** The ratio-and-bar loop. */
  method BarChart(groups: seq<Counts>) returns (rows: seq<BarRow>, ratios: seq<real>)
    ensures rows == BarRows(groups, |groups|)
    ensures ratios == Ratios(groups, |groups|)
  {
    rows := [];
    ratios := [];
    for g := 0 to |groups|
      invariant rows == BarRows(groups, g)
      invariant ratios == Ratios(groups, g)
    {
      var stats := groups[g];
      if stats.total > 0 {
        var ratio := stats.transported as real / stats.total as real;
        ratios := ratios + [ratio];
        var barLength := Trunc(ratio * BarWidth as real);
        var bar := Repeat(FullBlock, barLength) + Repeat(LightShade, BarWidth - barLength);
        rows := rows + [BarRow(g, stats, ratio, bar)];
      }
    }
  }

  /** What a table line says about its decade: the decade has data, and the
      line shows its record, its ratio and the bar of that ratio. */
  predicate RowOf(groups: seq<Counts>, row: BarRow)
  {
    && row.group < |groups| && row.counts == groups[row.group] && row.counts.total > 0
    && row.ratio == Ratio(row.counts) && row.bar == Bar(row.ratio)
  }

  /** Every table line describes a decade with data, in decade order, and the
      ratio list holds the lines' ratios in the same order. */
  lemma {:induction false} BarRowsFaithful(groups: seq<Counts>, n: nat)
    requires n <= |groups|
    ensures |BarRows(groups, n)| == |Ratios(groups, n)|
    ensures forall i :: 0 <= i < |BarRows(groups, n)| ==>
              && RowOf(groups, BarRows(groups, n)[i])
              && BarRows(groups, n)[i].group < n
              && BarRows(groups, n)[i].ratio == Ratios(groups, n)[i]
    ensures forall i, j :: 0 <= i < j < |BarRows(groups, n)| ==>
              BarRows(groups, n)[i].group < BarRows(groups, n)[j].group
    decreases n
  {
    if n > 0 {
      BarRowsFaithful(groups, n - 1);
      var prev := BarRows(groups, n - 1);
      var now := BarRows(groups, n);
      var prevRatios := Ratios(groups, n - 1);
      var nowRatios := Ratios(groups, n);
      if groups[n - 1].total > 0 {
        assert now == prev + [now[|now| - 1]];
        assert nowRatios == prevRatios + [nowRatios[|nowRatios| - 1]];
        assert now[|now| - 1].group == n - 1;
      } else {
        assert now == prev && nowRatios == prevRatios;
      }
    }
  }

  /** Every decade with data has a table line. */
  lemma {:induction false} BarRowsComplete(groups: seq<Counts>, n: nat, g: nat)
    requires n <= |groups| && g < n && groups[g].total > 0
    ensures exists i :: 0 <= i < |BarRows(groups, n)| && BarRows(groups, n)[i].group == g
    decreases n
  {
    var now := BarRows(groups, n);
    if g == n - 1 {
      assert now[|now| - 1].group == g;
    } else {
      BarRowsComplete(groups, n - 1, g);
      var prev := BarRows(groups, n - 1);
      var i :| 0 <= i < |prev| && prev[i].group == g;
      assert now[i] == prev[i];
    }
  }

  /** A line's ratio is in [0, 1] and its bar is 20 characters whose first
      `20 * transported / total` (rounded down) are full blocks. */
  lemma RowShape(groups: seq<Counts>, row: BarRow)
    requires ValidGroups(groups) && RowOf(groups, row)
    ensures 0.0 <= row.ratio <= 1.0
    ensures |row.bar| == BarWidth
    ensures forall i :: 0 <= i < BarWidth ==>
              row.bar[i] == if i < (row.counts.transported * BarWidth) / row.counts.total
                            then FullBlock else LightShade
  {
    RatioBounds(row.counts);
    BarLengthOfCounts(row.counts);
    BarLayout(row.ratio);
  }

  // ----------------------------------------------------------- point chart

  /** `max(ratios)`, or 1 when no decade has data. */
  function MaxRatio(ratios: seq<real>): real
  {
    if ratios == [] then 1.0 else LargestOf(ratios)
  }

  function LargestOf(xs: seq<real>): real
    requires xs != []
  {
    if |xs| == 1 then xs[0] else Max(LargestOf(xs[..|xs| - 1]), xs[|xs| - 1])
  }

  /** `max` returns an element, and no element exceeds it. */
  lemma {:induction false} LargestOfIsMax(xs: seq<real>)
    requires xs != []
    ensures forall i :: 0 <= i < |xs| ==> xs[i] <= LargestOf(xs)
    ensures exists i :: 0 <= i < |xs| && xs[i] == LargestOf(xs)
    decreases |xs|
  {
    if |xs| == 1 {
      assert xs[0] == LargestOf(xs);
    } else {
      var init := xs[..|xs| - 1];
      LargestOfIsMax(init);
      var i :| 0 <= i < |init| && init[i] == LargestOf(init);
      if LargestOf(xs) == xs[|xs| - 1] {
        assert xs[|xs| - 1] == LargestOf(xs);
      } else {
        assert xs[i] == LargestOf(xs);
      }
      forall k | 0 <= k < |xs| ensures xs[k] <= LargestOf(xs) {
        if k < |init| {
          assert xs[k] == init[k];
        }
      }
    }
  }

  /** The ratios are exactly the ratios of the decades with data. */
  lemma {:induction false} RatiosMembers(groups: seq<Counts>, n: nat)
    requires n <= |groups|
    ensures forall x :: x in Ratios(groups, n) ==>
              exists g :: 0 <= g < n && groups[g].total > 0 && x == Ratio(groups[g])
    ensures forall g :: 0 <= g < n && groups[g].total > 0 ==> Ratio(groups[g]) in Ratios(groups, n)
    decreases n
  {
    if n > 0 {
      RatiosMembers(groups, n - 1);
      var prev := Ratios(groups, n - 1);
      var now := Ratios(groups, n);
      var added: seq<real> := if groups[n - 1].total > 0 then [Ratio(groups[n - 1])] else [];
      assert now == prev + added;
      forall x | x in now
        ensures exists g :: 0 <= g < n && groups[g].total > 0 && x == Ratio(groups[g])
      {
        if x in prev {
          var g :| 0 <= g < n - 1 && groups[g].total > 0 && x == Ratio(groups[g]);
        } else {
          assert x in added;
          assert groups[n - 1].total > 0 && x == Ratio(groups[n - 1]);
        }
      }
    }
  }

  /** The ratio a decade's points are drawn at: relative to the largest ratio
      when that is positive, else 0. */
  function Normalized(c: Counts, maxRatio: real): real
  {
    if maxRatio > 0.0 then Ratio(c) / maxRatio else 0.0
  }

  /** The three characters of decade g at a level. */
  function Cell(groups: seq<Counts>, maxRatio: real, level: nat, g: nat): string
    requires g < |groups|
  {
    if groups[g].total > 0 && Normalized(groups[g], maxRatio) >= level as real / GraphHeight as real
    then Point else Blank
  }

  /** The cells of the first n decades at a level. */
  function Cells(groups: seq<Counts>, maxRatio: real, level: nat, n: nat): string
    requires n <= |groups|
  {
    if n == 0 then [] else Cells(groups, maxRatio, level, n - 1) + Cell(groups, maxRatio, level, n - 1)
  }

  function DigitChar(d: nat): char
    requires d < 10
  {
    ('0' as int + d) as char
  }

  /** `f"{level/10:.1f} |"`. */
  function LevelPrefix(level: nat): string
    requires level <= GraphHeight
  {
    [DigitChar(level / 10), '.', DigitChar(level % 10), ' ', '|']
  }

  /** The chart line of one level. */
  function ChartLine(groups: seq<Counts>, maxRatio: real, level: nat): string
    requires level <= GraphHeight
  {
    LevelPrefix(level) + Cells(groups, maxRatio, level, |groups|)
  }

  /** The x axis: four spaces, a corner and three dashes per decade. */
  function AxisLine(n: nat): string
  {
    "    +" + Repeat('-', 3 * n)
  }

  /** `f"{label[0]:<3}"` for the first n decades. */
  function AxisLabels(n: nat): string
    requires n <= |Labels|
  {
    if n == 0 then "     " else AxisLabels(n - 1) + [Labels[n - 1][0], ' ', ' ']
  }

  /** The whole chart: the levels from 1.0 down to 0.0, then the axis and its
      labels. */
  function Chart(groups: seq<Counts>, maxRatio: real): seq<string>
    requires |groups| == GroupCount
  {
    seq(GraphHeight + 1, j requires 0 <= j <= GraphHeight => ChartLine(groups, maxRatio, GraphHeight - j))
    + [AxisLine(GroupCount), AxisLabels(GroupCount)]
  }

  /** The inner chart loop: the line of one level, one cell per decade. */
  method LevelLine(groups: seq<Counts>, maxRatio: real, level: nat) returns (line: string)
    requires level <= GraphHeight
    ensures line == ChartLine(groups, maxRatio, level)
  {
    line := LevelPrefix(level);
    for g := 0 to |groups|
      invariant line == LevelPrefix(level) + Cells(groups, maxRatio, level, g)
    {
      var cell: string;
      if groups[g].total > 0 {
        var ratio := groups[g].transported as real / groups[g].total as real;
        var normalizedRatio := if maxRatio > 0.0 then ratio / maxRatio else 0.0;
        if normalizedRatio >= level as real / GraphHeight as real {
          cell := Point;
        } else {
          cell := Blank;
        }
      } else {
        cell := Blank;
      }
      line := line + cell;
    }
  }

  /** The chart loops: one line per level from the top, then the axis and
      its labels. */
  method PointChart(groups: seq<Counts>, ratios: seq<real>) returns (lines: seq<string>, maxRatio: real)
    requires |groups| == GroupCount
    ensures maxRatio == MaxRatio(ratios)
    ensures lines == Chart(groups, maxRatio)
  {
    maxRatio := if ratios != [] then LargestOf(ratios) else 1.0;
    lines := [];
    for j := 0 to GraphHeight + 1
      invariant |lines| == j
      invariant forall k :: 0 <= k < j ==> lines[k] == ChartLine(groups, maxRatio, GraphHeight - k)
    {
      var line := LevelLine(groups, maxRatio, GraphHeight - j);
      lines := lines + [line];
    }
    var axis := "    +" + Repeat('-', |groups| * 3);
    var labels := "     ";
    for g := 0 to |groups|
      invariant labels == AxisLabels(g)
    {
      labels := labels + [Labels[g][0], ' ', ' '];
    }
    lines := lines + [axis, labels];
  }

  /** The cells of n decades take three characters each. */
  lemma {:induction false} CellsLength(groups: seq<Counts>, maxRatio: real, level: nat, n: nat)
    requires n <= |groups|
    ensures |Cells(groups, maxRatio, level, n)| == 3 * n
    decreases n
  {
    if n > 0 {
      CellsLength(groups, maxRatio, level, n - 1);
    }
  }

  /** The chart has the eleven level lines, the axis and the labels; each
      level line is its five-character prefix and three characters per
      decade. */
  lemma ChartShape(groups: seq<Counts>, maxRatio: real)
    requires |groups| == GroupCount
    ensures |Chart(groups, maxRatio)| == GraphHeight + 3
    ensures forall j :: 0 <= j <= GraphHeight ==> |Chart(groups, maxRatio)[j]| == 5 + 3 * GroupCount
  {
    forall j | 0 <= j <= GraphHeight ensures |Chart(groups, maxRatio)[j]| == 5 + 3 * GroupCount {
      assert Chart(groups, maxRatio)[j] == ChartLine(groups, maxRatio, GraphHeight - j);
      CellsLength(groups, maxRatio, GraphHeight - j, |groups|);
    }
  }

  /** The cells of the first k decades begin the cells of the first n: the
      cell of decade g follows the 3g characters of the decades before it. */
  lemma {:induction false} CellsPrefix(groups: seq<Counts>, maxRatio: real, level: nat, k: nat, n: nat)
    requires k <= n <= |groups|
    ensures Cells(groups, maxRatio, level, k) <= Cells(groups, maxRatio, level, n)
    decreases n - k
  {
    if k < n {
      CellsPrefix(groups, maxRatio, level, k + 1, n);
    }
  }

  /** A decade's column is filled from the bottom: a point at one level
      means a point at every lower level; a decade without data has no point
      at any level, a decade with data always has the level-0 point, and
      when the largest ratio is 0 every point sits on the 0.0 line. */
  lemma CellsFillFromBottom(groups: seq<Counts>, maxRatio: real, g: nat, low: nat, high: nat)
    requires ValidGroups(groups) && g < |groups|
    requires maxRatio >= 0.0
    requires low <= high
    ensures Cell(groups, maxRatio, high, g) == Point ==> Cell(groups, maxRatio, low, g) == Point
    ensures groups[g].total == 0 ==> Cell(groups, maxRatio, high, g) == Blank
    ensures groups[g].total > 0 ==> Cell(groups, maxRatio, 0, g) == Point
    ensures maxRatio == 0.0 && high > 0 ==> Cell(groups, maxRatio, high, g) == Blank
  {
    assert low as real / GraphHeight as real <= high as real / GraphHeight as real;
    if groups[g].total > 0 {
      RatioBounds(groups[g]);
      if maxRatio > 0.0 {
        QuotientOfMax(Ratio(groups[g]), maxRatio);
      }
    }
  }

  /** Dividing a non-negative r by a positive m gives a non-negative quotient
      that is at most 1 when r <= m, and 1 exactly when r == m. */
  lemma QuotientOfMax(r: real, m: real)
    requires 0.0 <= r && m > 0.0
    ensures r / m >= 0.0
    ensures r <= m ==> r / m <= 1.0
    ensures r <= m ==> (r / m >= 1.0 <==> r == m)
  {
    var q := r / m;
    assert q * m == r;
  }

  /** With the chart's own maximum, the top line marks exactly the decades
      whose ratio is the largest (when that is positive), and such a decade
      is marked at every level. */
  lemma MaxDecadeMarked(groups: seq<Counts>, g: nat, level: nat)
    requires ValidGroups(groups) && g < |groups| && level <= GraphHeight
    requires MaxRatio(Ratios(groups, |groups|)) > 0.0
    ensures var m := MaxRatio(Ratios(groups, |groups|));
            Cell(groups, m, GraphHeight, g) == Point <==> groups[g].total > 0 && Ratio(groups[g]) == m
    ensures var m := MaxRatio(Ratios(groups, |groups|));
            groups[g].total > 0 && Ratio(groups[g]) == m ==> Cell(groups, m, level, g) == Point
  {
    var rs := Ratios(groups, |groups|);
    var m := MaxRatio(rs);
    if groups[g].total > 0 {
      RatiosMembers(groups, |groups|);
      LargestOfIsMax(rs);
      RatioBounds(groups[g]);
      var r := Ratio(groups[g]);
      assert r <= m by {
        var i :| 0 <= i < |rs| && rs[i] == r;
      }
      QuotientOfMax(r, m);
      assert Normalized(groups[g], m) == r / m;
      assert level as real / GraphHeight as real <= 1.0;
      assert GraphHeight as real / GraphHeight as real == 1.0;
    }
  }

  // --------------------------------------------------------------- analysis

  /** What the analysis computes: the records, the table lines, the chart
      lines and the maximum shown in the legend. */
  datatype AgeReport = AgeReport(groups: seq<Counts>, rows: seq<BarRow>, chart: seq<string>, maxRatio: real)

  function AgeReportOf(ages: seq<string>, ts: seq<string>, parse: string -> Option<real>): AgeReport
    requires |ages| <= |ts|
  {
    var groups := AgeTally(ages, ts, parse, |ages|);
    var maxRatio := MaxRatio(Ratios(groups, |groups|));
    AgeReport(groups, BarRows(groups, |groups|), Chart(groups, maxRatio), maxRatio)
  }

  /** The analysis over a store; a missing `Age` or outcome column is the
      KeyError of the lookups, `Age` first. */
  method AnalyzeAgeGroupsTransported(data: Columns, parse: string -> Option<real>) returns (r: Result<AgeReport>)
    requires Rectangular(data)
    ensures AgeCol !in data ==> r == Err(MissingColumn(AgeCol))
    ensures AgeCol in data && OutcomeCol !in data ==> r == Err(MissingColumn(OutcomeCol))
    ensures AgeCol in data && OutcomeCol in data ==>
              r == Ok(AgeReportOf(data[AgeCol], data[OutcomeCol], parse))
  {
    if AgeCol !in data {
      return Err(MissingColumn(AgeCol));
    }
    var ages := data[AgeCol];
    if OutcomeCol !in data {
      return Err(MissingColumn(OutcomeCol));
    }
    var transported := data[OutcomeCol];
    var groups := CountAgeGroups(ages, transported, parse);
    var rows, ratios := BarChart(groups);
    var lines, maxRatio := PointChart(groups, ratios);
    r := Ok(AgeReport(groups, rows, lines, maxRatio));
  }
}
