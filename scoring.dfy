/** The risk scoring algorithm of Scoring_Algorithm.py: min-max scaling of a numeric
    column (`scale_data`) and the fixed-weight composite risk score
    (`calculcate_risk_scores`) over a table of threat actors.

    Numbers are exact reals. A cell of a pandas float column is either a number or
    NaN; NaN is what pandas produces for 0/0 and it propagates through the
    arithmetic, so it is modelled explicitly by `Cell`.

    The source as written calls an undefined `Scale` and assigns `scal_cve` three
    times, then reads `scal_cwe` and `scal_ttp`, which it never computes. This
    model follows the evident intent: each signal is scaled from its own column
    with `scale_data`. */
module Scoring {

  /** A cell of a float column. */
  datatype Cell = NaN | Num(value: real)

  function MinOf(col: seq<real>): (m: real)
    requires |col| > 0
    ensures m in col
    ensures forall i :: 0 <= i < |col| ==> m <= col[i]
  {
    if |col| == 1 then col[0]
    else
      var m := MinOf(col[1..]);
      if col[0] <= m then col[0] else m
  }

  function MaxOf(col: seq<real>): (m: real)
    requires |col| > 0
    ensures m in col
    ensures forall i :: 0 <= i < |col| ==> col[i] <= m
  {
    if |col| == 1 then col[0]
    else
      var m := MaxOf(col[1..]);
      if m <= col[0] then col[0] else m
  }

  /** The column has at least two distinct values, so `max - min` is positive. */
  predicate HasSpread(col: seq<real>)
  {
    |col| > 0 && MinOf(col) < MaxOf(col)
  }

  /** One value scaled against the column's minimum and maximum. */
  function ScaleValue(v: real, lo: real, hi: real): real
    requires lo < hi
  {
    (v - lo) / (hi - lo)
  }

  lemma ScaleValueBounds(v: real, lo: real, hi: real)
    requires lo < hi && lo <= v <= hi
    ensures 0.0 <= ScaleValue(v, lo, hi) <= 1.0
  {
    var d, x := hi - lo, v - lo;
    assert 0.0 <= x <= d;
    var q := x / d;
    assert q >= 0.0;
    assert q * d == x;
    assert q * d <= 1.0 * d;
  }

  lemma ScaleValueEndpoints(v: real, lo: real, hi: real)
    requires lo < hi
    ensures ScaleValue(v, lo, hi) == 0.0 <==> v == lo
    ensures ScaleValue(v, lo, hi) == 1.0 <==> v == hi
  {
    var d := hi - lo;
    var q := (v - lo) / d;
    assert q * d == v - lo;
  }

  lemma ScaleValueMonotone(a: real, b: real, lo: real, hi: real)
    requires lo < hi
    ensures a <= b <==> ScaleValue(a, lo, hi) <= ScaleValue(b, lo, hi)
  {
    var d := hi - lo;
    var p, q := (a - lo) / d, (b - lo) / d;
    assert p * d == a - lo && q * d == b - lo;
    assert (q - p) * d == b - a;
    if p <= q {
      assert (q - p) * d >= 0.0;
    } else {
      assert (p - q) * d > 0.0;
    }
  }

  /** `scale_data`: `(column - column.min()) / (column.max() - column.min())`.
      An empty column gives an empty column; a column whose values are all equal
      divides 0 by 0 in every row, which pandas turns into NaN. */
  function ScaleData(col: seq<real>): (r: seq<Cell>)
    ensures |r| == |col|
  {
    if |col| == 0 then []
    else
      var lo, hi := MinOf(col), MaxOf(col);
      if hi == lo then seq(|col|, _ => NaN)
      else seq(|col|, i requires 0 <= i < |col| => Num(ScaleValue(col[i], lo, hi)))
  }

  /** With spread, row `i` of the scaled column is the scaled value of row `i`. */
  lemma ScaleDataAt(col: seq<real>, i: int)
    requires HasSpread(col) && 0 <= i < |col|
    ensures ScaleData(col)[i] == Num(ScaleValue(col[i], MinOf(col), MaxOf(col)))
  {
  }

  /** When the column has spread, every scaled value is a number in [0, 1]. */
  lemma ScaleInUnitInterval(col: seq<real>)
    requires HasSpread(col)
    ensures forall i :: 0 <= i < |col| ==>
      ScaleData(col)[i].Num? && 0.0 <= ScaleData(col)[i].value <= 1.0
  {
    forall i | 0 <= i < |col|
      ensures ScaleData(col)[i].Num? && 0.0 <= ScaleData(col)[i].value <= 1.0
    {
      ScaleDataAt(col, i);
      ScaleValueBounds(col[i], MinOf(col), MaxOf(col));
    }
  }

  /** The minimum of a column scales to exactly 0 and the maximum to exactly 1, and
      no other value does. */
  lemma ScaleEndpoints(col: seq<real>, i: int)
    requires HasSpread(col) && 0 <= i < |col|
    ensures ScaleData(col)[i] == Num(0.0) <==> col[i] == MinOf(col)
    ensures ScaleData(col)[i] == Num(1.0) <==> col[i] == MaxOf(col)
  {
    ScaleDataAt(col, i);
    ScaleValueEndpoints(col[i], MinOf(col), MaxOf(col));
  }

  /** Scaling preserves the order of the records, in both directions. */
  lemma ScaleMonotone(col: seq<real>, i: int, j: int)
    requires HasSpread(col) && 0 <= i < |col| && 0 <= j < |col|
    ensures ScaleData(col)[i].Num? && ScaleData(col)[j].Num?
    ensures col[i] <= col[j] <==> ScaleData(col)[i].value <= ScaleData(col)[j].value
  {
    ScaleDataAt(col, i);
    ScaleDataAt(col, j);
    ScaleValueMonotone(col[i], col[j], MinOf(col), MaxOf(col));
  }

  /** A non-empty column without spread scales to NaN in every row. */
  lemma ScaleDegenerate(col: seq<real>)
    requires |col| > 0 && !HasSpread(col)
    ensures forall i :: 0 <= i < |col| ==> ScaleData(col)[i] == NaN
  {
    assert MinOf(col) <= MaxOf(col) by {
      assert MinOf(col) <= col[0] <= MaxOf(col);
    }
  }

  // ---------------------------------------------------------------------------
  // The composite score
  // ---------------------------------------------------------------------------

  const CveWeight: real := 0.5
  const CweWeight: real := 0.3
  const TtpWeight: real := 0.2

  /** The weights are non-negative and add up to 1: the score is a convex combination. */
  lemma WeightsAreConvex()
    ensures CveWeight >= 0.0 && CweWeight >= 0.0 && TtpWeight >= 0.0
    ensures CveWeight + CweWeight + TtpWeight == 1.0
  {
  }

  /** A column multiplied by a weight (`df['scal_x'] * X_WEIGHT`); NaN stays NaN. */
  function Weighted(col: seq<Cell>, w: real): (r: seq<Cell>)
    ensures |r| == |col|
  {
    seq(|col|, i requires 0 <= i < |col| => if col[i].NaN? then NaN else Num(col[i].value * w))
  }

  /** Two columns added row by row; NaN in either operand gives NaN. */
  function AddColumns(a: seq<Cell>, b: seq<Cell>): (r: seq<Cell>)
    requires |a| == |b|
    ensures |r| == |a|
  {
    seq(|a|, i requires 0 <= i < |a| =>
      if a[i].NaN? || b[i].NaN? then NaN else Num(a[i].value + b[i].value))
  }

  /** The `risk_score` column, as the source builds it from the three weighted columns. */
  function RiskScoreColumn(cve: seq<real>, cwe: seq<real>, ttp: seq<real>): (r: seq<Cell>)
    requires |cve| == |cwe| == |ttp|
    ensures |r| == |cve|
  {
    AddColumns(AddColumns(Weighted(ScaleData(cve), CveWeight),
                          Weighted(ScaleData(cwe), CweWeight)),
               Weighted(ScaleData(ttp), TtpWeight))
  }

  /** One row of the result of `calculcate_risk_scores`. */
  datatype RiskRow = RiskRow(name: string, riskScore: Cell)

  /** `df[['name', 'risk_score']]`: the name of each record beside its score. */
  function RiskTable(names: seq<string>, cve: seq<real>, cwe: seq<real>, ttp: seq<real>): (t: seq<RiskRow>)
    requires |names| == |cve| == |cwe| == |ttp|
    ensures |t| == |names|
    ensures forall i :: 0 <= i < |t| ==> t[i].name == names[i]
  {
    var score := RiskScoreColumn(cve, cwe, ttp);
    seq(|names|, i requires 0 <= i < |names| => RiskRow(names[i], score[i]))
  }

  /** The weighted sum of one record's three scaled signals. */
  function WeightedSum(c: real, w: real, t: real): real
  {
    CveWeight * c + CweWeight * w + TtpWeight * t
  }

  /** A scaled cell is NaN exactly when its column has no spread. */
  lemma ScaleNaN(col: seq<real>, i: int)
    requires 0 <= i < |col|
    ensures ScaleData(col)[i].NaN? <==> !HasSpread(col)
  {
  }

  /** Row `i` of the `risk_score` column combines row `i` of the three scaled
      columns; NaN in any of them gives NaN. */
  lemma RiskScoreColumnAt(cve: seq<real>, cwe: seq<real>, ttp: seq<real>, i: int)
    requires |cve| == |cwe| == |ttp| && 0 <= i < |cve|
    ensures var c, w, t := ScaleData(cve)[i], ScaleData(cwe)[i], ScaleData(ttp)[i];
      RiskScoreColumn(cve, cwe, ttp)[i] ==
        if c.NaN? || w.NaN? || t.NaN? then NaN else Num(WeightedSum(c.value, w.value, t.value))
  {
    var c, w, t := ScaleData(cve), ScaleData(cwe), ScaleData(ttp);
    var wc, ww, wt := Weighted(c, CveWeight), Weighted(w, CweWeight), Weighted(t, TtpWeight);
    var partial := AddColumns(wc, ww);
    assert RiskScoreColumn(cve, cwe, ttp) == AddColumns(partial, wt);
    assert partial[i] == if c[i].NaN? || w[i].NaN? then NaN else Num(c[i].value * CveWeight + w[i].value * CweWeight);
  }

  /** Row `i` of the table is record `i`'s name with the weighted sum of that
      record's own scaled signals; if any of the three columns lacks spread, the
      score is NaN. */
  lemma RiskTableRow(names: seq<string>, cve: seq<real>, cwe: seq<real>, ttp: seq<real>, i: int)
    requires |names| == |cve| == |cwe| == |ttp| && 0 <= i < |names|
    ensures RiskTable(names, cve, cwe, ttp)[i].name == names[i]
    ensures HasSpread(cve) && HasSpread(cwe) && HasSpread(ttp) ==>
      RiskTable(names, cve, cwe, ttp)[i].riskScore ==
        Num(WeightedSum(ScaleData(cve)[i].value, ScaleData(cwe)[i].value, ScaleData(ttp)[i].value))
    ensures !(HasSpread(cve) && HasSpread(cwe) && HasSpread(ttp)) ==>
      RiskTable(names, cve, cwe, ttp)[i].riskScore == NaN
  {
    RiskScoreColumnAt(cve, cwe, ttp, i);
    ScaleNaN(cve, i);
    ScaleNaN(cwe, i);
    ScaleNaN(ttp, i);
    assert RiskTable(names, cve, cwe, ttp)[i].riskScore == RiskScoreColumn(cve, cwe, ttp)[i];
  }

  /** The scaling step exactly as written (reading the undefined `Scale` as
      `scale_data`): all three statements scale the CVE column into `scal_cve`. */
  function ScaledColumnsAsWritten(cve: seq<real>, cwe: seq<real>, ttp: seq<real>, derived: map<string, seq<Cell>>): map<string, seq<Cell>>
  {
    derived["scal_cve" := ScaleData(cve)]["scal_cve" := ScaleData(cve)]["scal_cve" := ScaleData(cve)]
  }

  /** On a fresh frame the statements as written leave `scal_cwe` and `scal_ttp`
      unset, so the weighting step that reads them has nothing to read. */
  lemma ScaledColumnsAsWrittenMissCweTtp(cve: seq<real>, cwe: seq<real>, ttp: seq<real>)
    ensures ScaledColumnsAsWritten(cve, cwe, ttp, map[]).Keys == {"scal_cve"}
    ensures "scal_cwe" !in ScaledColumnsAsWritten(cve, cwe, ttp, map[])
    ensures "scal_ttp" !in ScaledColumnsAsWritten(cve, cwe, ttp, map[])
  {
    assert "scal_cwe" != "scal_cve" && "scal_ttp" != "scal_cve" by {
      assert "scal_cwe"[6] != "scal_cve"[6] && "scal_ttp"[5] != "scal_cve"[5];
    }
  }

  /** When every signal column has spread, every risk score is a number in [0, 1]. */
  lemma RiskScoreInUnitInterval(names: seq<string>, cve: seq<real>, cwe: seq<real>, ttp: seq<real>)
    requires |names| == |cve| == |cwe| == |ttp|
    requires HasSpread(cve) && HasSpread(cwe) && HasSpread(ttp)
    ensures forall i :: 0 <= i < |names| ==>
      RiskTable(names, cve, cwe, ttp)[i].riskScore.Num? &&
      0.0 <= RiskTable(names, cve, cwe, ttp)[i].riskScore.value <= 1.0
  {
    ScaleInUnitInterval(cve);
    ScaleInUnitInterval(cwe);
    ScaleInUnitInterval(ttp);
    forall i | 0 <= i < |names|
      ensures RiskTable(names, cve, cwe, ttp)[i].riskScore.Num? &&
              0.0 <= RiskTable(names, cve, cwe, ttp)[i].riskScore.value <= 1.0
    {
      RiskTableRow(names, cve, cwe, ttp, i);
    }
  }

  /** A record at least as severe as another on all three signals scores at least as high. */
  lemma RiskScoreMonotone(names: seq<string>, cve: seq<real>, cwe: seq<real>, ttp: seq<real>, i: int, j: int)
    requires |names| == |cve| == |cwe| == |ttp| && 0 <= i < |names| && 0 <= j < |names|
    requires HasSpread(cve) && HasSpread(cwe) && HasSpread(ttp)
    requires cve[j] <= cve[i] && cwe[j] <= cwe[i] && ttp[j] <= ttp[i]
    ensures RiskTable(names, cve, cwe, ttp)[i].riskScore.Num? && RiskTable(names, cve, cwe, ttp)[j].riskScore.Num?
    ensures RiskTable(names, cve, cwe, ttp)[j].riskScore.value <= RiskTable(names, cve, cwe, ttp)[i].riskScore.value
  {
    RiskTableRow(names, cve, cwe, ttp, i);
    RiskTableRow(names, cve, cwe, ttp, j);
    ScaleMonotone(cve, j, i);
    ScaleMonotone(cwe, j, i);
    ScaleMonotone(ttp, j, i);
  }

  // ---------------------------------------------------------------------------
  // The table the source updates in place
  // ---------------------------------------------------------------------------

  /** The data frame passed to `calculcate_risk_scores`: its input columns and the
      derived columns that the function writes into it, by column name. */
  class ThreatFrame {
    var name: seq<string>
    var cveSeverity: seq<real>
    var cweImpact: seq<real>
    var ttpFrequency: seq<real>
    var derived: map<string, seq<Cell>>

    ghost predicate Valid()
      reads this
    {
      && |cveSeverity| == |name|
      && |cweImpact| == |name|
      && |ttpFrequency| == |name|
      && forall c :: c in derived ==> |derived[c]| == |name|
    }

    /** `pd.DataFrame(data)` over the four input columns. */
    constructor (name: seq<string>, cveSeverity: seq<real>, cweImpact: seq<real>, ttpFrequency: seq<real>)
      requires |cveSeverity| == |name| && |cweImpact| == |name| && |ttpFrequency| == |name|
      ensures Valid()
      ensures this.name == name && this.cveSeverity == cveSeverity
      ensures this.cweImpact == cweImpact && this.ttpFrequency == ttpFrequency
      ensures derived == map[]
    {
      this.name := name;
      this.cveSeverity := cveSeverity;
      this.cweImpact := cweImpact;
      this.ttpFrequency := ttpFrequency;
      derived := map[];
    }

    /** `calculcate_risk_scores(df)`: adds the scaled, weighted and `risk_score`
        columns to the frame and returns the name and score of every record. */
    method CalculateRiskScores() returns (table: seq<RiskRow>)
      requires Valid()
      modifies this
      ensures Valid()
      ensures name == old(name) && cveSeverity == old(cveSeverity)
      ensures cweImpact == old(cweImpact) && ttpFrequency == old(ttpFrequency)
      ensures derived == old(derived)["scal_cve" := ScaleData(cveSeverity)]
                                     ["scal_cwe" := ScaleData(cweImpact)]
                                     ["scal_ttp" := ScaleData(ttpFrequency)]
                                     ["weighted_cve" := Weighted(ScaleData(cveSeverity), CveWeight)]
                                     ["weighted_cwe" := Weighted(ScaleData(cweImpact), CweWeight)]
                                     ["weighted_ttp" := Weighted(ScaleData(ttpFrequency), TtpWeight)]
                                     ["risk_score" := RiskScoreColumn(cveSeverity, cweImpact, ttpFrequency)]
      ensures table == RiskTable(name, cveSeverity, cweImpact, ttpFrequency)
    {
      var scalCve, scalCwe, scalTtp := ScaleData(cveSeverity), ScaleData(cweImpact), ScaleData(ttpFrequency);
      derived := derived["scal_cve" := scalCve];
      derived := derived["scal_cwe" := scalCwe];
      derived := derived["scal_ttp" := scalTtp];

      var weightedCve := Weighted(scalCve, CveWeight);
      var weightedCwe := Weighted(scalCwe, CweWeight);
      var weightedTtp := Weighted(scalTtp, TtpWeight);
      derived := derived["weighted_cve" := weightedCve];
      derived := derived["weighted_cwe" := weightedCwe];
      derived := derived["weighted_ttp" := weightedTtp];

      var score := AddColumns(AddColumns(weightedCve, weightedCwe), weightedTtp);
      derived := derived["risk_score" := score];
      assert score == RiskScoreColumn(cveSeverity, cweImpact, ttpFrequency);
      var names := name;
      table := seq(|names|, i requires 0 <= i < |names| => RiskRow(names[i], score[i]));
    }
  }

  // ---------------------------------------------------------------------------
  // The worked example at the end of the source file
  // ---------------------------------------------------------------------------

  const ExampleNames: seq<string> := ["APT28", "APT37", "APT38"]
  const ExampleCve: seq<real> := [9.8, 7.5, 5.0]
  const ExampleCwe: seq<real> := [3.0, 2.0, 1.0]
  const ExampleTtp: seq<real> := [12.0, 8.0, 5.0]

  lemma ExampleCveExtremes()
    ensures MinOf(ExampleCve) == 5.0 && MaxOf(ExampleCve) == 9.8
  {
    assert ExampleCve[1..] == [7.5, 5.0] && ExampleCve[2..] == [5.0];
  }

  lemma ExampleCweExtremes()
    ensures MinOf(ExampleCwe) == 1.0 && MaxOf(ExampleCwe) == 3.0
  {
    assert ExampleCwe[1..] == [2.0, 1.0] && ExampleCwe[2..] == [1.0];
  }

  lemma ExampleTtpExtremes()
    ensures MinOf(ExampleTtp) == 5.0 && MaxOf(ExampleTtp) == 12.0
  {
    assert ExampleTtp[1..] == [8.0, 5.0] && ExampleTtp[2..] == [5.0];
  }

  /** APT28 is the maximum on every signal and scores 1, APT38 is the minimum on
      every signal and scores 0, and APT37 lies strictly between them
      (25/96 + 3/20 + 3/35 = 1667/3360). */
  lemma ExampleRanking()
    ensures var t := RiskTable(ExampleNames, ExampleCve, ExampleCwe, ExampleTtp);
      && |t| == 3
      && t[0] == RiskRow("APT28", Num(1.0))
      && t[1] == RiskRow("APT37", Num(1667.0 / 3360.0))
      && t[2] == RiskRow("APT38", Num(0.0))
      && 0.0 < t[1].riskScore.value < 1.0
  {
    ExampleCveExtremes();
    ExampleCweExtremes();
    ExampleTtpExtremes();
    RiskTableRow(ExampleNames, ExampleCve, ExampleCwe, ExampleTtp, 0);
    RiskTableRow(ExampleNames, ExampleCve, ExampleCwe, ExampleTtp, 1);
    RiskTableRow(ExampleNames, ExampleCve, ExampleCwe, ExampleTtp, 2);
  }

  /** The example usage: build the frame, score it, and obtain the ranking
      APT28 > APT37 > APT38. */
  method ExampleUsage() returns (riskScores: seq<RiskRow>)
    ensures |riskScores| == 3
    ensures riskScores[0] == RiskRow("APT28", Num(1.0))
    ensures riskScores[2] == RiskRow("APT38", Num(0.0))
    ensures riskScores[1].name == "APT37" && riskScores[1].riskScore.Num?
    ensures 0.0 < riskScores[1].riskScore.value < 1.0
  {
    var df := new ThreatFrame(ExampleNames, ExampleCve, ExampleCwe, ExampleTtp);
    riskScores := df.CalculateRiskScores();
    ExampleRanking();
  }
}
