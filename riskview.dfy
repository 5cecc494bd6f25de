/**
 * The risk panel of the front end (src/components/RiskAssessment.jsx): the
 * score it shows, the label it puts under it, and the cards it builds from
 * the `category_risks` object, with its own three-band level scale.
 */
module RiskAssessmentView {
  import opened Wrappers
  import opened Tables
  import Markers
  import CategoryRisks
  import Assessment

  type CategoryRisk = CategoryRisks.CategoryRisk

  /** The panel's level scale, with no CRITICAL band */
  datatype DisplayLevel = Low | Moderate | High {
    function Label(): string {
      match this
      case Low => "Low"
      case Moderate => "Moderate"
      case High => "High"
    }

    function Rank(): nat {
      match this
      case Low => 0
      case Moderate => 1
      case High => 2
    }
  }

  /** The component's own getRiskLevelFromSeverity: Low below 2.5, Moderate below 5.0, else High */
  function DisplayRiskLevel(severity: real): DisplayLevel {
    if severity < 2.5 then Low
    else if severity < 5.0 then Moderate
    else High
  }

  /** Each level is the half-open band of severities it covers. */
  lemma DisplayRiskLevelBands(severity: real)
    ensures DisplayRiskLevel(severity) == Low <==> severity < 2.5
    ensures DisplayRiskLevel(severity) == Moderate <==> 2.5 <= severity < 5.0
    ensures DisplayRiskLevel(severity) == High <==> 5.0 <= severity
  {
  }

  /** A higher severity never gives a lower display level. */
  lemma DisplayRiskLevelMonotone(a: real, b: real)
    requires a <= b
    ensures DisplayRiskLevel(a).Rank() <= DisplayRiskLevel(b).Rank()
  {
  }

  /**
   * The panel's scale is never milder than the engine's (CRITICAL counting
   * as High), and is strictly harsher on [2.5, 3) and [5, 6): 2.5 is
   * Moderate here and LOW in the engine, 5.0 is High here and MODERATE there.
   */
  lemma DisplayScaleHarsher(severity: real)
    ensures DisplayRiskLevel(severity).Rank() >= Min(CategoryRisks.RiskLevelFromSeverity(severity).Rank(), 2)
    ensures DisplayRiskLevel(2.5) == Moderate && CategoryRisks.RiskLevelFromSeverity(2.5) == CategoryRisks.RiskLevel.Low
    ensures DisplayRiskLevel(5.0) == High && CategoryRisks.RiskLevelFromSeverity(5.0) == CategoryRisks.RiskLevel.Moderate
  {
  }

  function Min(a: nat, b: nat): nat {
    if a <= b then a else b
  }

  /** A JavaScript number under `||`: present and non-zero */
  predicate Truthy(x: Option<real>) {
    x.Some? && x.value != 0.0
  }

  /**
   * `overall_risk_score || overall_score || 0`: a missing or zero score
   * falls through to the next one.
   */
  function OverallScore(overallRiskScore: Option<real>, overallScore: Option<real>): (score: real)
    ensures Truthy(overallRiskScore) ==> score == overallRiskScore.value
    ensures !Truthy(overallRiskScore) && Truthy(overallScore) ==> score == overallScore.value
    ensures !Truthy(overallRiskScore) && !Truthy(overallScore) ==> score == 0.0
  {
    if Truthy(overallRiskScore) then overallRiskScore.value
    else if Truthy(overallScore) then overallScore.value
    else 0.0
  }

  /**
   * The shown score is zero only when neither score is a non-zero number;
   * a zero `overall_risk_score` (the engine's score for an empty panel) lets
   * a legacy `overall_score` show through.
   */
  lemma OverallScoreFallback(overallRiskScore: Option<real>, overallScore: Option<real>)
    ensures OverallScore(overallRiskScore, overallScore) == 0.0 <==> !Truthy(overallRiskScore) && !Truthy(overallScore)
    ensures OverallScore(Some(0.0), Some(4.0)) == 4.0
  {
  }

  /** normalizedScore: scores up to 10 are taken as a 0..10 scale and multiplied by 10 */
  function NormalizedScore(score: real): (n: real)
    ensures score > 10.0 ==> n == score
    ensures score <= 10.0 ==> n == score * 10.0
  {
    if score > 10.0 then score else score * 10.0
  }

  /**
   * For non-negative scores the normalised score is never smaller than the
   * score; the engine's 0..9 scores land on 0..90; and the normalisation is
   * not monotone: 10 becomes 100, 11 stays 11.
   */
  lemma NormalizedScoreProperties(score: real)
    ensures 0.0 <= score ==> score <= NormalizedScore(score)
    ensures 0.0 <= score <= 9.0 ==> 0.0 <= NormalizedScore(score) <= 90.0
    ensures NormalizedScore(10.0) == 100.0 && NormalizedScore(11.0) == 11.0
  {
  }

  /**
   * getOverallRiskCategory, called with the normalised score: a non-empty
   * `risk_category` decides alone (anything but LOW and MODERATE, CRITICAL
   * included, reads as high); without one the score is banded at 30 and 70.
   */
  function OverallLabel(riskCategory: string, score: real): (shown: string)
    ensures riskCategory != "" ==> (shown == "Low Risk" <==> riskCategory == "LOW")
    ensures riskCategory != "" ==> (shown == "Moderate Risk" <==> riskCategory == "MODERATE")
    ensures riskCategory != "" ==> (shown == "High Risk" <==> riskCategory != "LOW" && riskCategory != "MODERATE")
    ensures riskCategory == "" ==> (shown == "Low Risk" <==> score < 30.0)
    ensures riskCategory == "" ==> (shown == "Moderate Risk" <==> 30.0 <= score < 70.0)
    ensures riskCategory == "" ==> (shown == "High Risk" <==> 70.0 <= score)
  {
    if riskCategory != "" then
      if riskCategory == "LOW" then "Low Risk"
      else if riskCategory == "MODERATE" then "Moderate Risk"
      else "High Risk"
    else if score < 30.0 then "Low Risk"
    else if score < 70.0 then "Moderate Risk"
    else "High Risk"
  }

  /** The label the panel shows for a risk assessment's two scores and its optional category */
  function ShownLabel(overallRiskScore: Option<real>, overallScore: Option<real>, riskCategory: Option<string>): string {
    OverallLabel(riskCategory.GetOr(""), NormalizedScore(OverallScore(overallRiskScore, overallScore)))
  }

  /**
   * With the engine's category the label follows it (HIGH and CRITICAL both
   * read as high); without it the 30/70 bands on the normalised score do not
   * match the engine's 3/6 bands: a score of 6.5 is HIGH in the engine and
   * shown as moderate when the category is missing.
   */
  lemma LabelPathsDisagree(score: real)
    ensures ShownLabel(Some(score), None, Some(Assessment.RiskCategory(score).Label())) ==
      (if score < 3.0 then "Low Risk" else if score < 6.0 then "Moderate Risk" else "High Risk")
    ensures ShownLabel(Some(6.5), None, None) == "Moderate Risk"
    ensures ShownLabel(Some(6.5), None, Some(Assessment.RiskCategory(6.5).Label())) == "High Risk"
  {
    assert CategoryRisks.RiskLevel.Low.Label() == "LOW";
    assert CategoryRisks.RiskLevel.Moderate.Label() == "MODERATE";
    assert CategoryRisks.RiskLevel.High.Label() == "HIGH" && CategoryRisks.RiskLevel.Critical.Label() == "CRITICAL";
  }

  /** One element of `categoryRisksArray` */
  datatype Card = Card(
    category: string, averageSeverity: real, weight: real, weightedScore: real,
    markersCount: nat, riskLevel: DisplayLevel, affectedMarkers: nat)

  /** The card for one key: the entry spread, the level re-banded on the panel's scale */
  function CardOf(category: string, e: CategoryRisk): Card {
    Card(category, e.averageSeverity, e.weight, e.weightedScore, e.markersCount,
         DisplayRiskLevel(e.averageSeverity), e.markersCount)
  }

  /** What the component may receive as `category_risks` */
  datatype CategoryRisksField = AsArray(cards: seq<Card>) | AsObject(table: Table<CategoryRisk>) | Absent

  /** `Object.keys(categoryRisks).map(...)` over a table */
  function CardsOf(t: Table<CategoryRisk>): (cards: seq<Card>)
    requires t.Valid()
    ensures |cards| == |t.keys|
    ensures forall i :: 0 <= i < |t.keys| ==> cards[i].category == t.keys[i]
    ensures forall i :: 0 <= i < |t.keys| ==> cards[i].affectedMarkers == t.entries[t.keys[i]].markersCount
    ensures forall i :: 0 <= i < |t.keys| ==> cards[i].averageSeverity == t.entries[t.keys[i]].averageSeverity
    ensures forall i :: 0 <= i < |t.keys| ==> cards[i].riskLevel == DisplayRiskLevel(cards[i].averageSeverity)
  {
    seq(|t.keys|, i requires 0 <= i < |t.keys| => CardOf(t.keys[i], t.entries[t.keys[i]]))
  }

  /** `categoryRisksArray`: an array is kept, an object converted, a missing field gives no cards */
  function CategoryRisksArray(field: CategoryRisksField): (cards: seq<Card>)
    requires field.AsObject? ==> field.table.Valid()
    ensures field.AsArray? ==> cards == field.cards
    ensures field.Absent? ==> cards == []
    ensures field.AsObject? ==> cards == CardsOf(field.table) && |cards| == |field.table.keys|
  {
    match field
    case AsArray(cards) => cards
    case AsObject(t) => CardsOf(t)
    case Absent => []
  }

  /** The affected-marker counts of the cards, added up */
  function AffectedTotal(cards: seq<Card>): int {
    if cards == [] then 0 else AffectedTotal(cards[..|cards| - 1]) + cards[|cards| - 1].affectedMarkers
  }

  /** The cards' affected-marker counts add up to the table's `markers_count` values. */
  lemma {:induction false} AffectedTotalIsCountSum(t: Table<CategoryRisk>, n: nat)
    requires t.Valid() && n <= |t.keys|
    ensures AffectedTotal(CardsOf(t)[..n]) == CategoryRisks.CountSum(t.entries, t.keys[..n])
  {
    if n > 0 {
      AffectedTotalIsCountSum(t, n - 1);
      assert CardsOf(t)[..n][..n - 1] == CardsOf(t)[..n - 1];
      assert t.keys[..n][..n - 1] == t.keys[..n - 1];
      assert t.keys[..n][n - 1] == t.keys[n - 1];
    }
  }

  /**
   * Over the engine's own table the cards show one card per category, and
   * their affected-marker counts add up to the number of markers.
   */
  lemma EngineCardsCoverMarkers(ms: seq<Markers.Marker>)
    ensures CategoryRisks.RisksOf(ms).categories.Valid()
    ensures |CardsOf(CategoryRisks.RisksOf(ms).categories)| == |CategoryRisks.Categories(ms)|
    ensures AffectedTotal(CardsOf(CategoryRisks.RisksOf(ms).categories)) == |ms|
  {
    var t := CategoryRisks.RisksOf(ms).categories;
    CategoryRisks.RisksTable(ms);
    AffectedTotalIsCountSum(t, |t.keys|);
    assert CardsOf(t)[..|t.keys|] == CardsOf(t);
    assert t.keys[..|t.keys|] == t.keys;
    CategoryRisks.MarkersCountsSum(ms);
  }
}
