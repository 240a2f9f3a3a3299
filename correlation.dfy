/** `analyze_transported_correlation`: a score per known column of the train
    store, the largest category deviation for the four categorical columns
    and the normalized mean difference for the six numeric columns that have
    values on both sides of the outcome. */
module Correlation {
  import opened Table
  import opened Categorical
  import opened Numeric

  /** The columns scored by category, in the order they are visited. */
  const CategoricalColumns: seq<string> := ["HomePlanet", "CryoSleep", "Destination", "VIP"]

  /** The columns scored by group means, in the order they are visited. */
  const NumericColumns: seq<string> := ["Age", "RoomService", "FoodCourt", "ShoppingMall", "Spa", "VRDeck"]

  /** A store the analysis can index: it has an outcome column and no column
      is longer than it. */
  predicate Analysable(data: Columns)
  {
    OutcomeCol in data && forall c :: c in data ==> |data[c]| <= |data[OutcomeCol]|
  }

  /** The scores of the present categorical columns among the first k. */
  function CategoricalScores(data: Columns, k: nat): map<string, real>
    requires Analysable(data) && k <= |CategoricalColumns|
  {
    map c | c in CategoricalColumns[..k] && c in data :: CategoricalDeviation(data[c], data[OutcomeCol])
  }

  /** A numeric column that gets a score: it is present and both of its
      groups are non-empty. */
  predicate NumericScored(data: Columns, parse: string -> Option<real>, sqrt: real -> real, c: string)
    requires Analysable(data)
  {
    c in data && NumericScoreOf(data[c], data[OutcomeCol], parse, sqrt).Some?
  }

  /** The scores after all categorical columns and the first k numeric ones. */
  function ScoresUpTo(data: Columns, parse: string -> Option<real>, sqrt: real -> real, k: nat): map<string, real>
    requires Analysable(data) && k <= |NumericColumns|
  {
    map c | c in data && (c in CategoricalColumns || (c in NumericColumns[..k] && NumericScored(data, parse, sqrt, c)))
      :: if c in CategoricalColumns then CategoricalDeviation(data[c], data[OutcomeCol])
         else NumericScoreOf(data[c], data[OutcomeCol], parse, sqrt).value
  }

  /** The `correlations` dictionary the analysis returns. */
  function Correlations(data: Columns, parse: string -> Option<real>, sqrt: real -> real): map<string, real>
    requires Analysable(data)
  {
    ScoresUpTo(data, parse, sqrt, |NumericColumns|)
  }

  /** The analysis over a store; a missing outcome column is the KeyError of
      `train_data['Transported']`, raised before anything is scored. */
  method AnalyzeTransportedCorrelation(data: Columns, parse: string -> Option<real>, sqrt: real -> real)
    returns (r: Result<map<string, real>>)
    requires Rectangular(data)
    ensures OutcomeCol !in data <==> r == Err(MissingColumn(OutcomeCol))
    ensures OutcomeCol in data ==> Analysable(data) && r == Ok(Correlations(data, parse, sqrt))
  {
    if OutcomeCol !in data {
      return Err(MissingColumn(OutcomeCol));
    }
    var correlations: map<string, real> := map[];
    var transported := data[OutcomeCol];
    for k := 0 to |CategoricalColumns|
      invariant correlations == CategoricalScores(data, k)
    {
      var col := CategoricalColumns[k];
      if col in data {
        var score := CategoricalScore(data[col], transported);
        correlations := correlations[col := score];
      }
      CategoricalScoresStep(data, k);
    }
    ScoresStart(data, parse, sqrt);
    for k := 0 to |NumericColumns|
      invariant correlations == ScoresUpTo(data, parse, sqrt, k)
    {
      var col := NumericColumns[k];
      if col in data {
        var score := NumericScore(data[col], transported, parse, sqrt);
        if score.Some? {
          correlations := correlations[col := score.value];
        }
      }
      ScoresStep(data, parse, sqrt, k);
    }
    r := Ok(correlations);
  }

  /** Visiting categorical column k adds its score when it is present. */
  lemma CategoricalScoresStep(data: Columns, k: nat)
    requires Analysable(data) && k < |CategoricalColumns|
    ensures var col := CategoricalColumns[k];
            CategoricalScores(data, k + 1) ==
              if col in data then CategoricalScores(data, k)[col := CategoricalDeviation(data[col], data[OutcomeCol])]
              else CategoricalScores(data, k)
  {
    assert CategoricalColumns[..k + 1] == CategoricalColumns[..k] + [CategoricalColumns[k]];
  }

  /** After the categorical columns no numeric column is scored yet. */
  lemma ScoresStart(data: Columns, parse: string -> Option<real>, sqrt: real -> real)
    requires Analysable(data)
    ensures ScoresUpTo(data, parse, sqrt, 0) == CategoricalScores(data, |CategoricalColumns|)
  {
    assert CategoricalColumns[..|CategoricalColumns|] == CategoricalColumns;
  }

  /** Visiting numeric column k adds its score when it is present and both of
      its groups are non-empty. */
  lemma ScoresStep(data: Columns, parse: string -> Option<real>, sqrt: real -> real, k: nat)
    requires Analysable(data) && k < |NumericColumns|
    ensures var col := NumericColumns[k];
            ScoresUpTo(data, parse, sqrt, k + 1) ==
              if NumericScored(data, parse, sqrt, col)
              then ScoresUpTo(data, parse, sqrt, k)[col := NumericScoreOf(data[col], data[OutcomeCol], parse, sqrt).value]
              else ScoresUpTo(data, parse, sqrt, k)
  {
    var col := NumericColumns[k];
    var prev := ScoresUpTo(data, parse, sqrt, k);
    var now := ScoresUpTo(data, parse, sqrt, k + 1);
    var want := if NumericScored(data, parse, sqrt, col)
                then prev[col := NumericScoreOf(data[col], data[OutcomeCol], parse, sqrt).value]
                else prev;
    assert col !in CategoricalColumns;
    assert NumericColumns[..k + 1] == NumericColumns[..k] + [col];
    assert now.Keys == want.Keys;
    forall c | c in now ensures now[c] == want[c] {
    }
  }

  /** Which columns are scored: every present categorical column, and a
      present numeric column exactly when both of its groups are non-empty;
      no other column. */
  lemma CorrelationsKeys(data: Columns, parse: string -> Option<real>, sqrt: real -> real, c: string)
    requires Analysable(data)
    ensures c in Correlations(data, parse, sqrt) <==>
              c in data && (c in CategoricalColumns ||
                            (c in NumericColumns &&
                             |Groups(data[c], data[OutcomeCol], parse, |data[c]|).0| > 0 &&
                             |Groups(data[c], data[OutcomeCol], parse, |data[c]|).1| > 0))
  {
    assert NumericColumns[..|NumericColumns|] == NumericColumns;
  }

  /** Every score is non-negative, and a categorical score is at most 1. */
  lemma CorrelationsBounds(data: Columns, parse: string -> Option<real>, sqrt: real -> real)
    requires Analysable(data)
    ensures forall c :: c in Correlations(data, parse, sqrt) ==> Correlations(data, parse, sqrt)[c] >= 0.0
    ensures forall c :: c in Correlations(data, parse, sqrt) && c in CategoricalColumns ==>
              Correlations(data, parse, sqrt)[c] <= 1.0
  {
    var m := Correlations(data, parse, sqrt);
    forall c | c in m ensures m[c] >= 0.0 && (c in CategoricalColumns ==> m[c] <= 1.0) {
      if c in CategoricalColumns {
        CategoricalDeviationBounds(data[c], data[OutcomeCol]);
      } else {
        var (t, f) := Groups(data[c], data[OutcomeCol], parse, |data[c]|);
        NormalizedDiffNonNegative(t, f, sqrt);
      }
    }
  }
}
