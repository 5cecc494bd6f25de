/**
 * The overall assessment of the scoring engine (src/services/api.js):
 * calculateOverallRisk divides the total weighted score by the total weight,
 * getRiskCategory bands the result, and the patient record carries a
 * biological age derived from the mean marker severity.
 */
module Assessment {
  import Markers
  import opened CategoryRisks

  type Marker = Markers.Marker

  /** calculateOverallRisk without the two-decimal rounding: 0 when there is no weight */
  function OverallRisk(r: RiskSummary): (score: real)
    ensures r.totalWeight == 0.0 ==> score == 0.0
    ensures r.totalWeight != 0.0 ==> score * r.totalWeight == r.totalWeightedScore
  {
    if r.totalWeight == 0.0 then 0.0 else r.totalWeightedScore / r.totalWeight
  }

  /** getRiskCategory: LOW below 3.0, MODERATE below 6.0, HIGH below 8.0, else CRITICAL */
  function RiskCategory(score: real): RiskLevel {
    if score < 3.0 then Low
    else if score < 6.0 then Moderate
    else if score < 8.0 then High
    else Critical
  }

  /** Each category is the half-open band of scores it covers. */
  lemma RiskCategoryBands(score: real)
    ensures RiskCategory(score) == Low <==> score < 3.0
    ensures RiskCategory(score) == Moderate <==> 3.0 <= score < 6.0
    ensures RiskCategory(score) == High <==> 6.0 <= score < 8.0
    ensures RiskCategory(score) == Critical <==> 8.0 <= score
  {
  }

  /** A higher score never gives a lower category. */
  lemma RiskCategoryMonotone(a: real, b: real)
    requires a <= b
    ensures RiskCategory(a).Rank() <= RiskCategory(b).Rank()
  {
  }

  /**
   * The overall category and the per-category level share the 3 and 6 cut
   * points but not the top one: a score in [8, 9) is CRITICAL overall and
   * only HIGH as a category level.
   */
  lemma CategoryAndLevelScalesDiffer()
    ensures RiskCategory(8.5) == Critical && RiskLevelFromSeverity(8.5) == High
    ensures forall s: real :: s < 8.0 ==> RiskCategory(s) == RiskLevelFromSeverity(s)
  {
  }

  /** The entry's weight is non-negative and its weighted score lies between `lo` and `hi` times it. */
  predicate WeightedWithin(e: CategoryRisk, lo: real, hi: real) {
    0.0 <= e.weight && lo * e.weight <= e.weightedScore <= hi * e.weight
  }

  /** An entry built from a group whose mean lies in [lo, hi] is weighted within those bounds. */
  lemma GroupRiskWithin(group: seq<Marker>, w: real, lo: real, hi: real)
    requires |group| > 0 && 0.0 <= w
    requires lo <= Markers.Mean(group) <= hi
    ensures WeightedWithin(GroupRiskOf(group, w), lo, hi)
  {
    var avg := Markers.Mean(group);
    assert avg * w - lo * w == (avg - lo) * w;
    assert hi * w - avg * w == (hi - avg) * w;
  }

  lemma AddBetween(lo: real, hi: real, w1: real, s1: real, w2: real, s2: real)
    requires lo * w1 <= s1 <= hi * w1 && lo * w2 <= s2 <= hi * w2
    ensures lo * (w1 + w2) <= s1 + s2 <= hi * (w1 + w2)
  {
    assert lo * (w1 + w2) == lo * w1 + lo * w2;
    assert hi * (w1 + w2) == hi * w1 + hi * w2;
  }

  /** A sum of weighted scores lies between `lo` and `hi` times the total weight. */
  lemma {:induction false} ScoreTotalBetween(t: map<string, CategoryRisk>, keys: seq<string>, lo: real, hi: real)
    requires forall k :: k in keys ==> k in t && WeightedWithin(t[k], lo, hi)
    ensures lo * WeightTotal(t, keys) <= ScoreTotal(t, keys) <= hi * WeightTotal(t, keys)
  {
    if keys != [] {
      var front := keys[..|keys| - 1];
      var e := t[keys[|keys| - 1]];
      ScoreTotalBetween(t, front, lo, hi);
      AddBetween(lo, hi, WeightTotal(t, front), ScoreTotal(t, front), e.weight, e.weightedScore);
    }
  }

  lemma DivBetween(s: real, w: real, lo: real, hi: real)
    requires 0.0 < w && lo * w <= s <= hi * w
    ensures lo <= s / w <= hi
  {
  }

  /**
   * Over entries weighted within [lo, hi] with weights of at least 1, the
   * total weighted score divided by the total weight lies in [lo, hi].
   */
  lemma WeightedMeanBetween(t: map<string, CategoryRisk>, keys: seq<string>, lo: real, hi: real)
    requires keys != []
    requires forall k :: k in keys ==> k in t && WeightedWithin(t[k], lo, hi) && 1.0 <= t[k].weight
    ensures 0.0 < WeightTotal(t, keys)
    ensures lo <= ScoreTotal(t, keys) / WeightTotal(t, keys) <= hi
  {
    WeightTotalAtLeast(t, keys);
    ScoreTotalBetween(t, keys, lo, hi);
    DivBetween(ScoreTotal(t, keys), WeightTotal(t, keys), lo, hi);
  }

  lemma {:induction false} WeightTotalAtLeast(t: map<string, CategoryRisk>, keys: seq<string>)
    requires forall k :: k in keys ==> k in t && 1.0 <= t[k].weight
    ensures |keys| as real <= WeightTotal(t, keys)
  {
    if keys != [] {
      WeightTotalAtLeast(t, keys[..|keys| - 1]);
    }
  }

  /**
   * The overall score is a weighted mean of the category averages: it lies
   * between any bounds of those averages.
   */
  lemma OverallRiskBetween(ms: seq<Marker>, lo: real, hi: real)
    requires ms != []
    requires forall c :: HasCategory(ms, c) ==> lo <= RiskOf(ms, c).averageSeverity <= hi
    ensures lo <= OverallRisk(RisksOf(ms)) <= hi
  {
    var t := RiskMap(ms);
    var cs := Categories(ms);
    assert HasCategory(ms, ms[0].category);
    EntriesWithin(ms, lo, hi);
    WeightedMeanBetween(t, cs, lo, hi);
  }

  lemma EntriesWithin(ms: seq<Marker>, lo: real, hi: real)
    requires forall c :: HasCategory(ms, c) ==> lo <= RiskOf(ms, c).averageSeverity <= hi
    ensures forall k :: k in Categories(ms) ==>
      k in RiskMap(ms) && WeightedWithin(RiskMap(ms)[k], lo, hi) && 1.0 <= RiskMap(ms)[k].weight
  {
    forall k | k in Categories(ms)
      ensures k in RiskMap(ms) && WeightedWithin(RiskMap(ms)[k], lo, hi) && 1.0 <= RiskMap(ms)[k].weight
    {
      MembersNonEmpty(ms, k);
      RiskEntry(ms, k);
      GroupRiskWithin(Members(ms, k), CategoryWeight(k), lo, hi);
      assert RiskMap(ms)[k] == RiskOf(ms, k);
    }
  }

  /** With severities on the 0..9 scale, the overall score is on that scale too. */
  lemma OverallRiskOnScale(ms: seq<Marker>)
    requires Markers.OnSeverityScale(ms)
    ensures 0.0 <= OverallRisk(RisksOf(ms)) <= 9.0
  {
    if ms != [] {
      forall c | HasCategory(ms, c)
        ensures 0.0 <= RiskOf(ms, c).averageSeverity <= 9.0
      {
        AverageOnScale(ms, c);
      }
      OverallRiskBetween(ms, 0.0, 9.0);
    } else {
      TotalWeightBounds(ms);
    }
  }

  /** A panel with every marker at severity 0 scores 0 and is LOW. */
  lemma AllNormalIsLow(ms: seq<Marker>)
    requires forall m :: m in ms ==> m.severity == 0.0
    ensures OverallRisk(RisksOf(ms)) == 0.0
    ensures RiskCategory(OverallRisk(RisksOf(ms))) == Low
  {
    if ms != [] {
      forall c | HasCategory(ms, c)
        ensures 0.0 <= RiskOf(ms, c).averageSeverity <= 0.0
      {
        MembersNonEmpty(ms, c);
        Markers.MeanBounds(Members(ms, c), 0.0, 0.0);
      }
      OverallRiskBetween(ms, 0.0, 0.0);
    } else {
      TotalWeightBounds(ms);
    }
  }

  /** The `biological_age` record of a patient */
  datatype BiologicalAge = BiologicalAge(avgSeverity: real, ageDelta: real, biologicalAge: real)

  /**
   * The biological age: the mean severity over all markers, an age delta of
   * 1.5 years per severity point above 5, added to the chronological age.
   */
  function BiologicalAgeOf(age: real, ms: seq<Marker>): (b: BiologicalAge)
    requires |ms| > 0
    ensures b.avgSeverity == Markers.Mean(ms)
    ensures b.biologicalAge - age == b.ageDelta
    ensures b.avgSeverity == 5.0 + b.ageDelta / 1.5
    ensures b.biologicalAge > age <==> b.avgSeverity > 5.0
    ensures b.biologicalAge == age <==> b.avgSeverity == 5.0
  {
    var avgSeverity := Markers.SumSeverity(ms) / |ms| as real;
    var ageDelta := (avgSeverity - 5.0) * 1.5;
    BiologicalAge(avgSeverity, ageDelta, age + ageDelta)
  }

  /** On the 0..9 severity scale the biological age lies within 7.5 years below and 6 above. */
  lemma BiologicalAgeBounds(age: real, ms: seq<Marker>)
    requires |ms| > 0 && Markers.OnSeverityScale(ms)
    ensures age - 7.5 <= BiologicalAgeOf(age, ms).biologicalAge <= age + 6.0
  {
    Markers.MeanBounds(ms, 0.0, 9.0);
  }

  /** A higher mean severity never gives a younger biological age. */
  lemma BiologicalAgeMonotone(age: real, ms1: seq<Marker>, ms2: seq<Marker>)
    requires |ms1| > 0 && |ms2| > 0
    requires Markers.Mean(ms1) <= Markers.Mean(ms2)
    ensures BiologicalAgeOf(age, ms1).biologicalAge <= BiologicalAgeOf(age, ms2).biologicalAge
  {
  }
}
