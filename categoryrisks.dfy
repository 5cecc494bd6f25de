/**
 * Category aggregation of the scoring engine (src/services/api.js):
 * calculateCategoryRisks groups the markers by category, averages each
 * group's severity, weighs it with getCategoryWeight and totals the weighted
 * scores and the weights; getRiskLevelFromSeverity bands each average.
 */
module CategoryRisks {
  import opened Tables
  import Markers

  type Marker = Markers.Marker

  /** The four risk levels of the engine */
  datatype RiskLevel = Low | Moderate | High | Critical {
    function Label(): string {
      match this
      case Low => "LOW"
      case Moderate => "MODERATE"
      case High => "HIGH"
      case Critical => "CRITICAL"
    }

    function Rank(): nat {
      match this
      case Low => 0
      case Moderate => 1
      case High => 2
      case Critical => 3
    }
  }

  /** getRiskLevelFromSeverity of the engine: cut points 3, 6 and 9, each inclusive */
  function RiskLevelFromSeverity(avg: real): RiskLevel {
    if avg >= 9.0 then Critical
    else if avg >= 6.0 then High
    else if avg >= 3.0 then Moderate
    else Low
  }

  /** Each level is the half-open band of averages it covers. */
  lemma RiskLevelBands(avg: real)
    ensures RiskLevelFromSeverity(avg) == Low <==> avg < 3.0
    ensures RiskLevelFromSeverity(avg) == Moderate <==> 3.0 <= avg < 6.0
    ensures RiskLevelFromSeverity(avg) == High <==> 6.0 <= avg < 9.0
    ensures RiskLevelFromSeverity(avg) == Critical <==> 9.0 <= avg
  {
  }

  /** A higher average never gives a lower level. */
  lemma RiskLevelMonotone(a: real, b: real)
    requires a <= b
    ensures RiskLevelFromSeverity(a).Rank() <= RiskLevelFromSeverity(b).Rank()
  {
  }

  /** For one marker alone, the level of its severity has the rank of its status. */
  lemma RiskLevelOfStatus(s: Markers.Status)
    ensures RiskLevelFromSeverity(Markers.Severity(s) as real).Rank() == s.Rank()
  {
  }

  /** The weight table of getCategoryWeight */
  const Weights: map<string, real> := map[
    "Inflammation" := 1.5,
    "Metabolism" := 1.5,
    "Cardiovascular" := 1.3,
    "Liver Function" := 1.2,
    "Kidney Function" := 1.2,
    "Thyroid Function" := 1.1,
    "Vitamins/Minerals" := 1.0,
    "Hormones" := 1.1,
    "Blood Health" := 1.2]

  /** getCategoryWeight: the table's weight, 1.0 for a category it does not list */
  function CategoryWeight(c: string): (w: real)
    ensures 1.0 <= w <= 1.5
    ensures c !in Weights ==> w == 1.0
  {
    if c in Weights then Weights[c] else 1.0
  }

  /** Some marker belongs to category `c`. */
  predicate HasCategory(ms: seq<Marker>, c: string) {
    exists m :: m in ms && m.category == c
  }

  /**
   * The keys of the grouping object after the first loop: the categories
   * present, each once, in order of first appearance.
   */
  function Categories(ms: seq<Marker>): (cs: seq<string>)
    ensures forall i, j :: 0 <= i < j < |cs| ==> cs[i] != cs[j]
    ensures forall c :: c in cs <==> HasCategory(ms, c)
    ensures |cs| <= |ms|
  {
    if ms == [] then []
    else
      var front := ms[..|ms| - 1];
      var last := ms[|ms| - 1];
      assert ms == front + [last];
      var cs := Categories(front);
      if last.category in cs then cs else cs + [last.category]
  }

  /** The markers of category `c`, in input order, as the first loop pushes them */
  function Members(ms: seq<Marker>, c: string): (r: seq<Marker>)
    ensures |r| <= |ms|
    ensures forall m :: m in r <==> m in ms && m.category == c
  {
    if ms == [] then []
    else
      var front := ms[..|ms| - 1];
      var last := ms[|ms| - 1];
      assert ms == front + [last];
      Members(front, c) + (if last.category == c then [last] else [])
  }

  lemma MembersNonEmpty(ms: seq<Marker>, c: string)
    requires HasCategory(ms, c)
    ensures |Members(ms, c)| > 0
  {
    var m :| m in ms && m.category == c;
    assert m in Members(ms, c);
  }

  lemma {:induction false} MembersEmpty(ms: seq<Marker>, c: string)
    requires forall m :: m in ms ==> m.category != c
    ensures Members(ms, c) == []
  {
    if ms != [] {
      MembersEmpty(ms[..|ms| - 1], c);
      assert ms[|ms| - 1] in ms;
    }
  }

  /** One entry of the result's `categories` object */
  datatype CategoryRisk = CategoryRisk(
    averageSeverity: real, weight: real, weightedScore: real,
    markersCount: nat, riskLevel: RiskLevel)

  /** The object calculateCategoryRisks returns */
  datatype RiskSummary = RiskSummary(
    categories: Table<CategoryRisk>, totalWeightedScore: real, totalWeight: real)

  /** The entry's weighted score is its average severity times its weight. */
  predicate ScoreIsWeighted(e: CategoryRisk) {
    e.weightedScore == e.averageSeverity * e.weight
  }

  /** The entry the second loop computes from one group and its weight */
  function GroupRiskOf(group: seq<Marker>, weight: real): CategoryRisk
    requires |group| > 0
  {
    var avg := Markers.Mean(group);
    CategoryRisk(avg, weight, avg * weight, |group|, RiskLevelFromSeverity(avg))
  }

  /** The entry of a category present among the markers */
  function RiskOf(ms: seq<Marker>, c: string): CategoryRisk
    requires HasCategory(ms, c)
  {
    MembersNonEmpty(ms, c);
    GroupRiskOf(Members(ms, c), CategoryWeight(c))
  }

  /** Sum of the `weighted_score` of the entries `keys`, in key order */
  function ScoreTotal(t: map<string, CategoryRisk>, keys: seq<string>): real
    requires forall k :: k in keys ==> k in t
  {
    if keys == [] then 0.0 else ScoreTotal(t, keys[..|keys| - 1]) + t[keys[|keys| - 1]].weightedScore
  }

  /** Sum of the `weight` of the entries `keys`, in key order */
  function WeightTotal(t: map<string, CategoryRisk>, keys: seq<string>): real
    requires forall k :: k in keys ==> k in t
  {
    if keys == [] then 0.0 else WeightTotal(t, keys[..|keys| - 1]) + t[keys[|keys| - 1]].weight
  }

  /** Entries outside `keys` do not affect the sums over `keys`. */
  lemma {:induction false} TotalsUpdate(t: map<string, CategoryRisk>, keys: seq<string>, c: string, r: CategoryRisk)
    requires forall k :: k in keys ==> k in t
    requires c !in keys
    ensures ScoreTotal(t[c := r], keys) == ScoreTotal(t, keys)
    ensures WeightTotal(t[c := r], keys) == WeightTotal(t, keys)
  {
    if keys != [] {
      TotalsUpdate(t, keys[..|keys| - 1], c, r);
    }
  }

  /** Adding an entry under a new key adds its score and weight to the sums. */
  lemma TotalsSnoc(t: map<string, CategoryRisk>, keys: seq<string>, c: string, r: CategoryRisk)
    requires forall k :: k in keys ==> k in t
    requires c !in keys
    ensures ScoreTotal(t[c := r], keys + [c]) == ScoreTotal(t, keys) + r.weightedScore
    ensures WeightTotal(t[c := r], keys + [c]) == WeightTotal(t, keys) + r.weight
  {
    assert (keys + [c])[..|keys|] == keys;
    TotalsUpdate(t, keys, c, r);
  }

  /** The entries of the result's `categories` object, by category */
  function RiskMap(ms: seq<Marker>): (t: map<string, CategoryRisk>)
    ensures forall c :: c in t <==> HasCategory(ms, c)
    ensures forall c :: c in t ==> t[c] == RiskOf(ms, c)
  {
    map c | c in Categories(ms) :: RiskOf(ms, c)
  }

  /** Specification of calculateCategoryRisks, without the two-decimal rounding */
  function RisksOf(ms: seq<Marker>): RiskSummary {
    var cs := Categories(ms);
    var t := RiskMap(ms);
    RiskSummary(Table(cs, t), ScoreTotal(t, cs), WeightTotal(t, cs))
  }

  /** A group of the first loop: its markers so far and its weight */
  datatype Group = Group(markers: seq<Marker>, weight: real)

  lemma CategoriesSnoc(ms: seq<Marker>, m: Marker)
    ensures Categories(ms + [m]) ==
      if m.category in Categories(ms) then Categories(ms) else Categories(ms) + [m.category]
  {
    assert (ms + [m])[..|ms|] == ms;
  }

  lemma MembersSnoc(ms: seq<Marker>, m: Marker)
    ensures forall c :: Members(ms + [m], c) == Members(ms, c) + (if m.category == c then [m] else [])
  {
    assert (ms + [m])[..|ms|] == ms;
  }

  /** The grouping state after the markers `done`: groups in first-appearance order */
  predicate GroupedAs(categories: Table<Group>, done: seq<Marker>) {
    && categories.Valid()
    && categories.keys == Categories(done)
    && forall c :: c in categories.entries ==>
         categories.entries[c] == Group(Members(done, c), CategoryWeight(c))
  }

  /** One step of the grouping loop keeps the grouping state. */
  lemma GroupStep(t: Table<Group>, done: seq<Marker>, m: Marker, g: Group)
    requires GroupedAs(t, done)
    requires g == if m.category in t.entries then t.entries[m.category] else Group([], CategoryWeight(m.category))
    ensures GroupedAs(t.Put(m.category, Group(g.markers + [m], g.weight)), done + [m])
  {
    CategoriesSnoc(done, m);
    GroupStepEntries(t, done, m, g);
  }

  /** The entries half of GroupStep: every group holds its category's markers so far. */
  lemma GroupStepEntries(t: Table<Group>, done: seq<Marker>, m: Marker, g: Group)
    requires GroupedAs(t, done)
    requires g == if m.category in t.entries then t.entries[m.category] else Group([], CategoryWeight(m.category))
    ensures forall c :: c in t.Put(m.category, Group(g.markers + [m], g.weight)).entries ==>
      t.Put(m.category, Group(g.markers + [m], g.weight)).entries[c] == Group(Members(done + [m], c), CategoryWeight(c))
  {
    var t' := t.Put(m.category, Group(g.markers + [m], g.weight));
    MembersSnoc(done, m);
    if m.category !in t.entries {
      MembersEmpty(done, m.category);
    }
    forall c | c in t'.entries
      ensures t'.entries[c] == Group(Members(done + [m], c), CategoryWeight(c))
    {
      if c != m.category {
        assert t'.entries[c] == t.entries[c];
      }
    }
  }

  /** First loop of calculateCategoryRisks: group the markers by category. */
  method GroupByCategory(markers: seq<Marker>) returns (categories: Table<Group>)
    ensures GroupedAs(categories, markers)
  {
    categories := Empty();
    for i := 0 to |markers|
      invariant GroupedAs(categories, markers[..i])
    {
      var m := markers[i];
      assert markers[..i + 1] == markers[..i] + [m];
      ghost var before := categories;
      if m.category !in categories.entries {
        categories := categories.Put(m.category, Group([], CategoryWeight(m.category)));
      }
      var g := categories.entries[m.category];
      categories := categories.Put(m.category, Group(g.markers + [m], g.weight));
      if m.category !in before.entries {
        before.PutTwice(m.category, Group([], CategoryWeight(m.category)), Group(g.markers + [m], g.weight));
      }
      GroupStep(before, markers[..i], m, g);
    }
    assert markers[..|markers|] == markers;
  }

  /**
   * The scoring state after the categories `done`: their entries, in key
   * order, agree with `spec`, and the totals are the sums over those entries.
   */
  predicate ScoredAs(categoryRisks: Table<CategoryRisk>, totalWeightedScore: real, totalWeight: real,
                     spec: map<string, CategoryRisk>, done: seq<string>)
  {
    && categoryRisks.Valid()
    && categoryRisks.keys == done
    && (forall c :: c in categoryRisks.entries ==> c in spec && categoryRisks.entries[c] == spec[c])
    && totalWeightedScore == ScoreTotal(categoryRisks.entries, done)
    && totalWeight == WeightTotal(categoryRisks.entries, done)
  }

  /** Every group is non-empty and yields the entry `spec` holds for its category. */
  predicate GroupsYield(categories: Table<Group>, spec: map<string, CategoryRisk>) {
    forall c :: c in categories.entries ==>
      && |categories.entries[c].markers| > 0
      && c in spec
      && GroupRiskOf(categories.entries[c].markers, categories.entries[c].weight) == spec[c]
  }

  /** The groups of the first loop yield the specified entries. */
  lemma GroupsYieldRisks(categories: Table<Group>, markers: seq<Marker>)
    requires GroupedAs(categories, markers)
    ensures GroupsYield(categories, RiskMap(markers))
  {
    forall c | c in categories.entries
      ensures |categories.entries[c].markers| > 0
      ensures c in RiskMap(markers)
      ensures GroupRiskOf(categories.entries[c].markers, categories.entries[c].weight) == RiskMap(markers)[c]
    {
      MembersNonEmpty(markers, c);
      assert categories.entries[c] == Group(Members(markers, c), CategoryWeight(c));
    }
  }

  /** One step of the scoring loop keeps the scoring state. */
  lemma ScoreStep(t: Table<CategoryRisk>, tws: real, tw: real, spec: map<string, CategoryRisk>,
                  cs: seq<string>, j: nat, risk: CategoryRisk)
    requires j < |cs| && forall i :: 0 <= i < j ==> cs[i] != cs[j]
    requires ScoredAs(t, tws, tw, spec, cs[..j])
    requires cs[j] in spec && risk == spec[cs[j]]
    ensures ScoredAs(t.Put(cs[j], risk), tws + risk.weightedScore, tw + risk.weight, spec, cs[..j + 1])
  {
    var done := cs[..j];
    assert cs[..j + 1] == done + [cs[j]];
    assert cs[j] !in done;
    TotalsSnoc(t.entries, done, cs[j], risk);
  }

  /** Second loop of calculateCategoryRisks: score the groups in key order and total them. */
  method ScoreCategories(categories: Table<Group>, ghost spec: map<string, CategoryRisk>)
    returns (categoryRisks: Table<CategoryRisk>, totalWeightedScore: real, totalWeight: real)
    requires categories.Valid() && GroupsYield(categories, spec)
    ensures ScoredAs(categoryRisks, totalWeightedScore, totalWeight, spec, categories.keys)
  {
    var cs := categories.keys;
    categoryRisks := Empty();
    totalWeightedScore := 0.0;
    totalWeight := 0.0;
    for j := 0 to |cs|
      invariant ScoredAs(categoryRisks, totalWeightedScore, totalWeight, spec, cs[..j])
    {
      var c := cs[j];
      var data := categories.entries[c];
      var risk := GroupRiskOf(data.markers, data.weight);
      ScoreStep(categoryRisks, totalWeightedScore, totalWeight, spec, cs, j, risk);
      categoryRisks := categoryRisks.Put(c, risk);
      totalWeightedScore := totalWeightedScore + risk.weightedScore;
      totalWeight := totalWeight + risk.weight;
    }
    assert cs[..|cs|] == cs;
  }

  /** The final scoring state is the specified result. */
  lemma ScoredIsRisks(t: Table<CategoryRisk>, tws: real, tw: real, markers: seq<Marker>)
    requires ScoredAs(t, tws, tw, RiskMap(markers), Categories(markers))
    ensures RiskSummary(t, tws, tw) == RisksOf(markers)
  {
    assert t.entries == RiskMap(markers);
  }

  /** calculateCategoryRisks: a grouping loop, then a loop over the groups in key order */
  method CalculateCategoryRisks(markers: seq<Marker>) returns (result: RiskSummary)
    ensures result == RisksOf(markers)
  {
    var categories := GroupByCategory(markers);
    GroupsYieldRisks(categories, markers);
    var categoryRisks, totalWeightedScore, totalWeight := ScoreCategories(categories, RiskMap(markers));
    ScoredIsRisks(categoryRisks, totalWeightedScore, totalWeight, markers);
    result := RiskSummary(categoryRisks, totalWeightedScore, totalWeight);
  }

  /** One entry per category present, each the risk of that category; the table is well formed. */
  lemma RisksTable(ms: seq<Marker>)
    ensures RisksOf(ms).categories.Valid()
    ensures forall c :: c in RisksOf(ms).categories.entries <==> HasCategory(ms, c)
    ensures forall c :: c in RisksOf(ms).categories.entries ==>
      RisksOf(ms).categories.entries[c] == RiskOf(ms, c)
  {
  }

  /**
   * A category's entry: its average is its group's mean, its weighted score
   * is that average times its weight, its weight lies in [1.0, 1.5], its
   * count is the size of its group and its level bands its average.
   */
  lemma RiskEntry(ms: seq<Marker>, c: string)
    requires HasCategory(ms, c)
    ensures |Members(ms, c)| > 0
    ensures RiskOf(ms, c).averageSeverity == Markers.Mean(Members(ms, c))
    ensures ScoreIsWeighted(RiskOf(ms, c))
    ensures RiskOf(ms, c).weight == CategoryWeight(c) && 1.0 <= RiskOf(ms, c).weight <= 1.5
    ensures RiskOf(ms, c).markersCount == |Members(ms, c)| >= 1
    ensures RiskOf(ms, c).riskLevel == RiskLevelFromSeverity(RiskOf(ms, c).averageSeverity)
  {
    MembersNonEmpty(ms, c);
  }

  /** Sum of the `markers_count` of the entries `keys` */
  function CountSum(t: map<string, CategoryRisk>, keys: seq<string>): int
    requires forall k :: k in keys ==> k in t
  {
    if keys == [] then 0 else CountSum(t, keys[..|keys| - 1]) + t[keys[|keys| - 1]].markersCount
  }

  /** Sum of the group sizes of the categories `cs` */
  function GroupSizes(ms: seq<Marker>, cs: seq<string>): int {
    if cs == [] then 0 else GroupSizes(ms, cs[..|cs| - 1]) + |Members(ms, cs[|cs| - 1])|
  }

  /** Adding one marker adds one to the group size of exactly its category. */
  lemma {:induction false} GroupSizesSnoc(ms: seq<Marker>, m: Marker, cs: seq<string>)
    requires forall i, j :: 0 <= i < j < |cs| ==> cs[i] != cs[j]
    ensures GroupSizes(ms + [m], cs) == GroupSizes(ms, cs) + (if m.category in cs then 1 else 0)
  {
    assert (ms + [m])[..|ms|] == ms;
    if cs != [] {
      var front := cs[..|cs| - 1];
      assert forall i, j :: 0 <= i < j < |front| ==> front[i] != front[j];
      GroupSizesSnoc(ms, m, front);
      assert cs == front + [cs[|cs| - 1]];
      if m.category == cs[|cs| - 1] {
        assert m.category !in front;
      }
    }
  }

  /** The group sizes over categories that cover all the markers add up to their number. */
  lemma {:induction false} GroupSizesCover(ms: seq<Marker>, cs: seq<string>)
    requires forall i, j :: 0 <= i < j < |cs| ==> cs[i] != cs[j]
    requires forall m :: m in ms ==> m.category in cs
    ensures GroupSizes(ms, cs) == |ms|
  {
    if ms == [] {
      GroupSizesEmpty(cs);
    } else {
      var front := ms[..|ms| - 1];
      var last := ms[|ms| - 1];
      assert ms == front + [last];
      GroupSizesCover(front, cs);
      GroupSizesSnoc(front, last, cs);
    }
  }

  lemma {:induction false} GroupSizesEmpty(cs: seq<string>)
    ensures GroupSizes([], cs) == 0
  {
    if cs != [] {
      GroupSizesEmpty(cs[..|cs| - 1]);
    }
  }

  lemma {:induction false} CountSumIsGroupSizes(ms: seq<Marker>, cs: seq<string>)
    requires forall c :: c in cs ==> HasCategory(ms, c)
    ensures forall k :: k in cs ==> k in RisksOf(ms).categories.entries
    ensures CountSum(RisksOf(ms).categories.entries, cs) == GroupSizes(ms, cs)
  {
    if cs != [] {
      CountSumIsGroupSizes(ms, cs[..|cs| - 1]);
    }
  }

  /** The `markers_count` values add up to the number of markers. */
  lemma MarkersCountsSum(ms: seq<Marker>)
    ensures forall k :: k in RisksOf(ms).categories.keys ==> k in RisksOf(ms).categories.entries
    ensures CountSum(RisksOf(ms).categories.entries, RisksOf(ms).categories.keys) == |ms|
  {
    var cs := Categories(ms);
    CountSumIsGroupSizes(ms, cs);
    forall m | m in ms
      ensures m.category in cs
    {
      assert HasCategory(ms, m.category);
    }
    GroupSizesCover(ms, cs);
  }

  lemma {:induction false} WeightTotalBounds(t: map<string, CategoryRisk>, keys: seq<string>)
    requires forall k :: k in keys ==> k in t && 1.0 <= t[k].weight <= 1.5
    ensures |keys| as real <= WeightTotal(t, keys) <= 1.5 * |keys| as real
  {
    if keys != [] {
      WeightTotalBounds(t, keys[..|keys| - 1]);
    }
  }

  /**
   * The total weight is the sum of the category weights: between 1.0 and 1.5
   * per category, and zero exactly when there are no markers.
   */
  lemma TotalWeightBounds(ms: seq<Marker>)
    ensures |Categories(ms)| as real <= RisksOf(ms).totalWeight <= 1.5 * |Categories(ms)| as real
    ensures RisksOf(ms).totalWeight == 0.0 <==> ms == []
  {
    WeightTotalBounds(RiskMap(ms), Categories(ms));
    if ms != [] {
      assert HasCategory(ms, ms[0].category);
    }
  }

  /** With consistent severities, every category average lies on the 0..9 scale. */
  lemma AverageOnScale(ms: seq<Marker>, c: string)
    requires HasCategory(ms, c)
    requires Markers.OnSeverityScale(ms)
    ensures 0.0 <= RiskOf(ms, c).averageSeverity <= 9.0
  {
    MembersNonEmpty(ms, c);
    Markers.MeanBounds(Members(ms, c), 0.0, 9.0);
  }

  /**
   * With severities consistent with the statuses, a category is CRITICAL
   * exactly when every one of its markers is CRITICAL.
   */
  lemma CriticalIffAllCritical(ms: seq<Marker>, c: string)
    requires HasCategory(ms, c)
    requires forall m :: m in ms ==> Markers.SeverityConsistent(m)
    ensures RiskOf(ms, c).riskLevel == Critical <==>
      forall m :: m in Members(ms, c) ==> m.status == Markers.Critical
  {
    MembersNonEmpty(ms, c);
    var group := Members(ms, c);
    assert forall m :: m in group ==> 0.0 <= m.severity <= 9.0;
    if RiskOf(ms, c).riskLevel == Critical {
      Markers.MeanBounds(group, 0.0, 9.0);
      Markers.MeanAtUpperBound(group, 9.0);
      forall m | m in group
        ensures m.status == Markers.Critical
      {
        assert Markers.Severity(m.status) == 9;
      }
    } else if forall m :: m in group ==> m.status == Markers.Critical {
      Markers.MeanBounds(group, 9.0, 9.0);
    }
  }
}
